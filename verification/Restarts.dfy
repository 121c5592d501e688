/** What survives a restart: the tag file, the downgrade to a lower ceiling, and the cadence of passes. */
module Restarts {
  import opened Tags
  import opened Polling
  import opened Reconcile
  import opened Ceiling
  import opened Convergence
  import opened History

  // --- Where an instance starts ---

  predicate StartsWell(e: StartEnv) {
    && e.shaOk && e.kubeconfigIsFile && !e.cluster.BadPattern? && e.write.Written?
    && e.sshOk && e.repoOk && e.checkoutOk
  }

  // With an environment that lets it, a job loops exactly when it is active, clones, and
  // its selected tag is below the ceiling, or above a positive one and hence reset. A job
  // whose selected tag is exactly at the ceiling exits.
  lemma LoopsExactlyWhen(cfg: Config, files: Files, e: StartEnv)
    requires StartsWell(e)
    ensures var selected, s := SelectedTag(cfg, files, e), StartUp(cfg, files, e);
      var a, b := Number(cfg, selected), Number(cfg, cfg.maxTag);
      s.status.Running? <==>
        cfg.isActive && cfg.doGitClone && a.Value? && b.Value? && (a.n < b.n || (a.n > b.n && b.n > 0))
  {
    hide ConvertTagToNumeric;
    StartDecided(cfg, SelectedTag(cfg, files, e));
  }

  lemma StartDecided(cfg: Config, selected: string)
    ensures var a, b := Number(cfg, selected), Number(cfg, cfg.maxTag);
      EntersLoop(cfg, StartingTag(cfg, selected)) <==>
        a.Value? && b.Value? && (a.n < b.n || (a.n > b.n && b.n > 0))
    ensures var a, b := Number(cfg, selected), Number(cfg, cfg.maxTag);
      a.Value? && b.Value? ==>
        StartingTag(cfg, selected) == if a.n > b.n then ZeroOf(cfg) else selected
    ensures CompareTwoTags(StartingTag(cfg, selected), cfg.maxTag, cfg.prefix).ComparePanicked?
        ==> CompareTwoTags(selected, cfg.maxTag, cfg.prefix).ComparePanicked?
  {
    hide ConvertTagToNumeric;
    ZeroTag(cfg.prefix);
    NumbersDecide(selected, cfg.maxTag, cfg.prefix);
    NumbersDecide(ZeroOf(cfg), cfg.maxTag, cfg.prefix);
  }

  // A deployment without a matching image is reported as v0.0.0, whatever the prefix. With
  // that answer a deploying job never loops under another prefix than "v"; under "v" it does,
  // if nothing else keeps it from looping and the ceiling is positive.
  lemma FallbackLoopsExactlyWhen(cfg: Config, files: Files, e: StartEnv)
    requires cfg.doDeploy && e.cluster == Serves(FALLBACK_TAG)
    ensures var m := Number(cfg, cfg.maxTag);
      var loops := cfg.isActive && cfg.doGitClone && cfg.prefix == "v" && m.Value? && m.n > 0;
      && (StartUp(cfg, files, e).status.Running? ==> loops)
      && (StartsWell(e) ==> (StartUp(cfg, files, e).status.Running? <==> loops))
  {
    hide ConvertTagToNumeric;
    FallbackByPrefix(cfg.prefix);
    StartDecided(cfg, FALLBACK_TAG);
  }

  // An instance that loops has saved its start tag and holds it.
  lemma StartIsSaved(cfg: Config, files: Files, e: StartEnv)
    requires StartUp(cfg, files, e).status.Running?
    ensures var s := StartUp(cfg, files, e);
      && s == LoopHead(s.cur, s.files) && EntersLoop(cfg, s.cur)
      && s.cur == StartingTag(cfg, SelectedTag(cfg, files, e))
      && s.files == files[TagPath(cfg) := s.cur]
  {
    hide ConvertTagToNumeric, CompareTwoTags;
  }

  // --- The tag file ---

  predicate AllWritten(es: seq<PassEnv>) { forall i :: 0 <= i < |es| ==> es[i].write.Written? }
  predicate NoneGarbled(es: seq<PassEnv>) { forall i :: 0 <= i < |es| ==> !es[i].write.Garbled? }

  predicate FileAgrees(cfg: Config, s: JobState) {
    && TagPath(cfg) in s.files && s.files[TagPath(cfg)] == Current(s.log)
    && (s.status.Running? ==> s.cur == Current(s.log))
  }

  predicate FileLags(cfg: Config, s: JobState) {
    TagPath(cfg) in s.files && WasCurrent(s.log, s.files[TagPath(cfg)])
  }

  lemma UpgradeKeepsFile(cfg: Config, s: JobState, e: PassEnv)
    requires s.status.Running?
    ensures FileAgrees(cfg, s) && e.write.Written? ==> FileAgrees(cfg, Upgrade(cfg, s, e))
    ensures FileLags(cfg, s) && !e.write.Garbled? ==> FileLags(cfg, Upgrade(cfg, s, e))
  {
    hide TagPath, Intervals, Total;
    var s1 := BuildStage(cfg, s, e);
    assert FileAgrees(cfg, s) ==> FileAgrees(cfg, s.Note(Build(s.strMax)));
    assert FileLags(cfg, s) ==> FileLags(cfg, s.Note(Build(s.strMax)));
    assert FileAgrees(cfg, s) && e.write.Written? ==> FileAgrees(cfg, s1);
    assert FileLags(cfg, s) && !e.write.Garbled? ==> FileLags(cfg, s1);
    if s1.status.Running? {
      var s2 := SyncStage(cfg, s1, e);
      assert FileAgrees(cfg, s1) ==> FileAgrees(cfg, s2);
      assert FileLags(cfg, s1) ==> FileLags(cfg, s2);
      if s2.status.Running? {
        DeployKeepsFile(cfg, s2, e);
      }
    }
  }

  lemma DeployKeepsFile(cfg: Config, s: JobState, e: PassEnv)
    requires s.status.Running?
    ensures FileAgrees(cfg, s) && e.write.Written? ==> FileAgrees(cfg, DeployStage(cfg, s, e))
    ensures FileLags(cfg, s) && !e.write.Garbled? ==> FileLags(cfg, DeployStage(cfg, s, e))
  {
    hide TagPath, Intervals, Total;
    var s1 := s.Note(Apply(s.strMax));
    var s2 := s1.Note(Ready);
    assert FileAgrees(cfg, s) ==> FileAgrees(cfg, s1) && FileAgrees(cfg, s2);
    assert FileLags(cfg, s) ==> FileLags(cfg, s1) && FileLags(cfg, s2);
    if e.cluster.Serves? {
      var s3 := s2.Note(Observed(e.cluster.tag));
      assert FileAgrees(cfg, s) ==> FileAgrees(cfg, s3);
      assert FileLags(cfg, s) ==> FileLags(cfg, s3);
    }
  }

  lemma PassKeepsFile(mode: Mode, cfg: Config, s: JobState, e: PassEnv)
    requires s.status.Running?
    ensures FileAgrees(cfg, s) && e.write.Written? ==> FileAgrees(cfg, Pass(mode, cfg, s, e))
    ensures FileLags(cfg, s) && !e.write.Garbled? ==> FileLags(cfg, Pass(mode, cfg, s, e))
  {
    hide Candidate, ConvertTagToNumeric, HashOf, Upgrade, TagPath;
    var choice := Candidate(cfg, e.tags);
    if choice.Chosen? {
      var s1 := Retarget(s, choice.n, choice.tag);
      assert (FileAgrees(cfg, s) ==> FileAgrees(cfg, s1)) && (FileLags(cfg, s) ==> FileLags(cfg, s1));
      UpgradeKeepsFile(cfg, s1, e);
    }
  }

  // The tag file agrees with memory: if every write succeeds, it holds the tag in use; if
  // writes may fail without touching it, it holds a tag that was in use before.
  lemma {:induction false} RunKeepsFile(mode: Mode, cfg: Config, s: JobState, es: seq<PassEnv>)
    ensures FileAgrees(cfg, s) && AllWritten(es) ==> FileAgrees(cfg, Run(mode, cfg, s, es))
    ensures FileLags(cfg, s) && NoneGarbled(es) ==> FileLags(cfg, Run(mode, cfg, s, es))
    decreases es
  {
    hide Pass, FileAgrees, FileLags;
    if es == [] || !s.status.Running? {
    } else {
      PassKeepsFile(mode, cfg, s, es[0]);
      RunKeepsFile(mode, cfg, Pass(mode, cfg, s, es[0]), es[1..]);
    }
  }

  // Whatever its start was, an instance that entered its loop keeps its file.
  lemma InstanceKeepsFile(mode: Mode, cfg: Config, files: Files, e: InstanceEnv)
    requires StartUp(cfg, files, e.start).status.Running?
    ensures AllWritten(e.passes) ==> FileAgrees(cfg, Instance(mode, cfg, files, e))
    ensures NoneGarbled(e.passes) ==> FileLags(cfg, Instance(mode, cfg, files, e))
  {
    hide Run, StartUp, TagPath, EntersLoop;
    StartIsSaved(cfg, files, e.start);
    RunKeepsFile(mode, cfg, StartUp(cfg, files, e.start), e.passes);
  }

  // A tag that was in use has a number no larger than that of the tag in use.
  lemma {:induction false} EarlierIsLower(cfg: Config, log: Log, tag: string, top: int)
    requires StagesFit(cfg, log, top) && WasCurrent(log, tag) && Number(cfg, Current(log)).Value?
    ensures Number(cfg, tag).Value? && Number(cfg, tag).n <= Number(cfg, Current(log)).n
  {
    hide ConvertTagToNumeric;
    if log.Begin? || (log.event.Advanced? && log.event.tag == tag) {
    } else {
      EarlierIsLower(cfg, log.earlier, tag, top);
    }
  }

  // When writes may fail, the saved tag never runs ahead of the tag in use.
  lemma FileNeverAhead(mode: Mode, cfg: Config, start: string, files: Files, es: seq<PassEnv>)
    requires EntersLoop(cfg, start) && NoneGarbled(es)
    requires TagPath(cfg) in files && files[TagPath(cfg)] == start
    requires SafeFrom(cfg, start)
    ensures var r := Run(mode, cfg, LoopHead(start, files), es);
      r.status.Running? ==>
        && TagPath(cfg) in r.files
        && var saved := r.files[TagPath(cfg)];
        && WasCurrent(r.log, saved)
        && Number(cfg, saved).Value? && Number(cfg, r.cur).Value?
        && Number(cfg, saved).n <= Number(cfg, r.cur).n
  {
    hide ConvertTagToNumeric, Run, TagPath, StagesFit;
    EnteringConverts(cfg, start);
    var s, top := LoopHead(start, files), TopOf(cfg);
    assert StagesFit(cfg, s.log, top) by { BeginFits(cfg, start, top); }
    RunFits(mode, cfg, s, es, Number(cfg, start).n, top);
    RunKeepsFile(mode, cfg, s, es);
    var r := Run(mode, cfg, s, es);
    if r.status.Running? {
      EarlierIsLower(cfg, r.log, r.files[TagPath(cfg)], top);
    }
  }

  lemma BeginFits(cfg: Config, start: string, top: int)
    ensures StagesFit(cfg, Begin(start), top)
  {
  }

  // The tag is above the ceiling.
  predicate Above(cfg: Config, tag: string) {
    Number(cfg, tag).Value? && Number(cfg, cfg.maxTag).Value? && Number(cfg, tag).n > Number(cfg, cfg.maxTag).n
  }

  // What the start of a successor reads back: the cluster's tag if a deploying job gets an
  // answer, and the tag file otherwise.
  predicate ReadsBack(cfg: Config, held: string, e: StartEnv) {
    if cfg.doDeploy && e.cluster.Serves? then e.cluster.tag == held else e.fileReadable
  }

  // A job on the way to a successor with the same tag file, which reads back what it held.
  predicate HandsOver(cfg: Config, r: JobState, e: StartEnv) {
    && r.status.Restarting?
    && TagPath(r.status.next) == TagPath(cfg) && ReadsBack(r.status.next, Current(r.log), e)
  }

  // A restarted job on the same tag file, after successful writes, selects exactly the tag
  // its predecessor held: without deploying, without an answer from the cluster, or when the
  // cluster serves that tag. If it loops, it resumes there, or at the zero tag when the new
  // ceiling is below it.
  lemma RestartResumes(mode: Mode, cfg: Config, files: Files, first: InstanceEnv, e: StartEnv)
    requires AllWritten(first.passes)
    ensures var r := Instance(mode, cfg, files, first);
      HandsOver(cfg, r, e) ==>
        var held, next := Current(r.log), r.status.next;
        var s := StartUp(next, r.files, e);
        && SelectedTag(next, r.files, e) == held
        && (s.status.Running? ==>
              && Number(next, held).Value? && Number(next, next.maxTag).Value?
              && s.cur == if Above(next, held) then ZeroOf(next) else held)
  {
    hide ConvertTagToNumeric, CompareTwoTags, Instance, TagPath, StartUp, EntersLoop;
    var r := Instance(mode, cfg, files, first);
    if HandsOver(cfg, r, e) {
      RestartingWasRunning(mode, cfg, files, first);
      InstanceKeepsFile(mode, cfg, files, first);
      if StartUp(r.status.next, r.files, e).status.Running? {
        StartIsSaved(r.status.next, r.files, e);
        StartDecided(r.status.next, Current(r.log));
      }
    }
  }

  // When the successor goes on: it loops, if nothing fails, exactly when it clones and the
  // held tag is below its ceiling, or above a positive one; and it goes on with the held tag
  // exactly in the first case. With the held tag at its ceiling it ends for good.
  lemma ResumesExactlyWhen(mode: Mode, cfg: Config, files: Files, first: InstanceEnv, e: StartEnv)
    requires AllWritten(first.passes) && StartsWell(e)
    ensures var r := Instance(mode, cfg, files, first);
      HandsOver(cfg, r, e) ==>
        var held, next := Current(r.log), r.status.next;
        var s, a, b := StartUp(next, r.files, e), Number(next, held), Number(next, next.maxTag);
        && (s.status.Running? <==> next.doGitClone && a.Value? && b.Value? && (a.n < b.n || (a.n > b.n && b.n > 0)))
        && (s.status.Running? && s.cur == held <==> next.doGitClone && a.Value? && b.Value? && a.n < b.n)
  {
    hide ConvertTagToNumeric, Instance, TagPath, StartUp, SelectedTag, StartsWell;
    var r := Instance(mode, cfg, files, first);
    if HandsOver(cfg, r, e) {
      RestartingWasRunning(mode, cfg, files, first);
      RestartResumes(mode, cfg, files, first, e);
      LoopsExactlyWhen(r.status.next, r.files, e);
      ZeroTag(r.status.next.prefix);
    }
  }

  // A job restarts only if it is not on its one run, under an active configuration whose
  // interval is long enough outside development mode.
  predicate RestartsSoundly(mode: Mode, next: Config) {
    !mode.once && next.isActive && (!mode.development ==> next.checkInterval >= SHORTEST)
  }

  // And it restarts only out of its loop.
  lemma RestartingWasRunning(mode: Mode, cfg: Config, files: Files, e: InstanceEnv)
    requires Instance(mode, cfg, files, e).status.Restarting?
    ensures StartUp(cfg, files, e.start).status.Running?
    ensures RestartsSoundly(mode, Instance(mode, cfg, files, e).status.next)
  {
    hide Run, StartUp;
    var s := StartUp(cfg, files, e.start);
    StartNeverRestarts(cfg, files, e.start);
    if s.status.Running? {
      RunRestartsActive(mode, cfg, s, e.passes);
    } else {
      StoppedStays(mode, cfg, s, e.passes);
    }
  }

  lemma StartNeverRestarts(cfg: Config, files: Files, e: StartEnv)
    ensures !StartUp(cfg, files, e).status.Restarting?
  {
    hide ConvertTagToNumeric, CompareTwoTags, TagPath;
  }

  lemma {:induction false} RunRestartsActive(mode: Mode, cfg: Config, s: JobState, es: seq<PassEnv>)
    requires !s.status.Restarting?
    ensures var r := Run(mode, cfg, s, es); r.status.Restarting? ==> RestartsSoundly(mode, r.status.next)
    decreases es
  {
    hide Pass;
    if es == [] || !s.status.Running? {
    } else {
      PassRestartsActive(mode, cfg, s, es[0]);
      var s1 := Pass(mode, cfg, s, es[0]);
      if s1.status.Restarting? {
        StoppedStays(mode, cfg, s1, es[1..]);
      } else {
        RunRestartsActive(mode, cfg, s1, es[1..]);
      }
    }
  }

  lemma PassRestartsActive(mode: Mode, cfg: Config, s: JobState, e: PassEnv)
    requires s.status.Running?
    ensures var r := Pass(mode, cfg, s, e); r.status.Restarting? ==> RestartsSoundly(mode, r.status.next)
  {
    hide Candidate, ConvertTagToNumeric, HashOf, Upgrade, Reloading;
    var choice := Candidate(cfg, e.tags);
    if choice.Chosen? {
      UpgradeNeverRestarts(cfg, Retarget(s, choice.n, choice.tag), e);
      ReloadedIsClamped(mode, e.reloads);
    }
  }

  // --- Downgrade ---

  // An instance whose selected tag is above its ceiling starts over from the zero tag, and
  // everything it then builds, syncs or deploys is at most the larger of ceiling and baseline.
  lemma DowngradeStaysBelow(mode: Mode, cfg: Config, files: Files, e: InstanceEnv)
    requires Above(cfg, SelectedTag(cfg, files, e.start)) && StartUp(cfg, files, e.start).status.Running?
    ensures var s := StartUp(cfg, files, e.start); s == LoopHead(ZeroOf(cfg), files[TagPath(cfg) := ZeroOf(cfg)])
    ensures var r, top := Instance(mode, cfg, files, e), TopOf(cfg);
      StagesFit(cfg, r.log, top) && (r.status.Running? ==> Number(cfg, r.cur).Value? && 0 <= Number(cfg, r.cur).n <= top)
  {
    hide ConvertTagToNumeric, CompareTwoTags, Run;
    StartIsSaved(cfg, files, e.start);
    StartDecided(cfg, SelectedTag(cfg, files, e.start));
    ZeroTag(cfg.prefix);
    EnteringConverts(cfg, ZeroOf(cfg));
    RunFits(mode, cfg, StartUp(cfg, files, e.start), e.passes, 0, TopOf(cfg));
  }

  // While the repository holds still, a job that starts over settles on the tag that
  // GetMaxTag defines for its ceiling; it stays at the zero tag exactly when none is above zero.
  lemma ZeroSettles(mode: Mode, cfg: Config, files: Files, es: seq<PassEnv>, tags: seq<string>, hashes: map<string, string>)
    requires !mode.once && RecordsUpgrades(cfg) && AllStill(es, tags, hashes) && |es| >= 4
    ensures var choice, r := Candidate(cfg, tags), Run(mode, cfg, LoopHead(ZeroOf(cfg), files), es);
      r.status.Running? ==> choice.Chosen? && r.cur == if choice.n > 0 then choice.tag else ZeroOf(cfg)
  {
    hide ConvertTagToNumeric, Run, HashOf, Candidate;
    ZeroTag(cfg.prefix);
    var s, choice := LoopHead(ZeroOf(cfg), files), Candidate(cfg, tags);
    if !choice.Chosen? {
      DeadEndStops(mode, cfg, s, es, tags, hashes);
    } else {
      ChoiceIsItsNumber(cfg, tags);
      if choice.n > 0 {
        assert choice.tag != s.cur;
        WantedIsReached(mode, cfg, s, es, tags, hashes);
      } else {
        Quiescence(mode, cfg, s, es, tags, hashes);
      }
    }
  }

  // The chosen number is not negative, and a positive one is that of the chosen tag.
  lemma ChoiceIsItsNumber(cfg: Config, tags: seq<string>)
    requires Candidate(cfg, tags).Chosen?
    ensures var choice := Candidate(cfg, tags);
      choice.n >= 0 && (choice.n > 0 ==> Number(cfg, choice.tag) == Value(choice.n))
  {
    hide ConvertTagToNumeric, TagsWithPrefix;
    BaselineByPrefix(cfg.prefix);
    var ceiling := NumberOrZero(ConvertTagToNumeric(CeilingTag(cfg.maxTag), cfg.prefix));
    var baseline := NumberOrZero(ConvertTagToNumeric(BASELINE_TAG, cfg.prefix));
    BestOfIsArgmax(TagsWithPrefix(tags, cfg.prefix), ceiling, baseline, NumberingOf(cfg.prefix));
  }

  // What an instance makes of a downgrade: it loops from the zero tag, which it has saved;
  // its stages and its tag in use stay at or below the larger of ceiling and baseline; and
  // if its repository holds still for four passes or more, it has stopped or holds the tag
  // that GetMaxTag defines for its ceiling, or the zero tag if no tag is above zero.
  predicate Downgrades(mode: Mode, cfg: Config, files: Files, e: InstanceEnv, tags: seq<string>, hashes: map<string, string>) {
    var r, choice := Instance(mode, cfg, files, e), Candidate(cfg, tags);
    && StartUp(cfg, files, e.start) == LoopHead(ZeroOf(cfg), files[TagPath(cfg) := ZeroOf(cfg)])
    && StagesFit(cfg, r.log, TopOf(cfg))
    && (r.status.Running? ==> Number(cfg, r.cur).Value? && 0 <= Number(cfg, r.cur).n <= TopOf(cfg))
    && (r.status.Running? && RecordsUpgrades(cfg) && AllStill(e.passes, tags, hashes) && |e.passes| >= 4 ==>
          choice.Chosen? && r.cur == if choice.n > 0 then choice.tag else ZeroOf(cfg))
  }

  lemma AboveDowngrades(mode: Mode, cfg: Config, files: Files, e: InstanceEnv, tags: seq<string>, hashes: map<string, string>)
    requires !mode.once && cfg.isActive && cfg.doGitClone && StartsWell(e.start)
    requires Above(cfg, SelectedTag(cfg, files, e.start)) && Number(cfg, cfg.maxTag).n > 0
    ensures Downgrades(mode, cfg, files, e, tags, hashes)
  {
    hide ConvertTagToNumeric, Run, TagPath, StartUp, Candidate, StagesFit, SelectedTag, TopOf;
    LoopsExactlyWhen(cfg, files, e.start);
    DowngradeStaysBelow(mode, cfg, files, e);
    if RecordsUpgrades(cfg) && AllStill(e.passes, tags, hashes) && |e.passes| >= 4 {
      ZeroSettles(mode, cfg, files[TagPath(cfg) := ZeroOf(cfg)], e.passes, tags, hashes);
    }
  }

  // Downgrade across a restart. A job restarts itself under a configuration whose ceiling is
  // positive but below the tag it held. If its writes succeeded, and its successor reads that
  // tag back and starts well, then the successor downgrades, whatever the two runs were.
  lemma DowngradeAcrossRestart(mode: Mode, cfg: Config, files: Files, first: InstanceEnv, second: InstanceEnv,
                               tags: seq<string>, hashes: map<string, string>)
    requires AllWritten(first.passes) && StartsWell(second.start)
    ensures var r := Instance(mode, cfg, files, first);
      HandsOver(cfg, r, second.start) ==>
        var held, next := Current(r.log), r.status.next;
        next.doGitClone && Above(next, held) && Number(next, next.maxTag).n > 0 ==>
          Downgrades(mode, next, r.files, second, tags, hashes)
  {
    hide Instance, Downgrades, StartUp, TagPath, SelectedTag, StartsWell;
    var r := Instance(mode, cfg, files, first);
    if HandsOver(cfg, r, second.start) {
      RestartingWasRunning(mode, cfg, files, first);
      RestartResumes(mode, cfg, files, first, second.start);
      var next := r.status.next;
      if next.doGitClone && Above(next, Current(r.log)) && Number(next, next.maxTag).n > 0 {
        AboveDowngrades(mode, next, r.files, second, tags, hashes);
      }
    }
  }

  function StartTag(log: Log): string {
    match log case Begin(start) => start case Then(earlier, _) => StartTag(earlier)
  }

  lemma {:induction false} StartedAt(log: Log, start: string)
    requires Started(log, start)
    ensures StartTag(log) == start
  {
    if !log.Then? {
    } else {
      StartedAt(log.earlier, start);
    }
  }

  lemma InstanceStaysBelow(mode: Mode, cfg: Config, files: Files, e: InstanceEnv)
    ensures var r := Instance(mode, cfg, files, e);
      SafeFrom(cfg, StartTag(r.log)) ==>
        && StagesFit(cfg, r.log, TopOf(cfg))
        && (r.status.Running? ==> Number(cfg, r.cur).Value? && Number(cfg, r.cur).n <= TopOf(cfg))
  {
    hide ConvertTagToNumeric, CompareTwoTags, Run;
    var s := StartUp(cfg, files, e.start);
    if s.status.Running? {
      StartIsSaved(cfg, files, e.start);
      EnteringConverts(cfg, s.cur);
      RunRecorded(mode, cfg, s.cur, s, e.passes);
      StartedAt(Run(mode, cfg, s, e.passes).log, s.cur);
      if SafeFrom(cfg, s.cur) {
        RunFits(mode, cfg, s, e.passes, Number(cfg, s.cur).n, TopOf(cfg));
      }
    } else {
      StoppedStays(mode, cfg, s, e.passes);
      EndedLogIsEmpty(cfg, files, e.start);
    }
  }

  lemma EndedLogIsEmpty(cfg: Config, files: Files, e: StartEnv)
    ensures StartUp(cfg, files, e).log.Begin?
  {
    hide ConvertTagToNumeric, CompareTwoTags, TagPath;
  }

  // Over any chain of restarts, whatever configurations are loaded: every instance keeps
  // every stage between its own tag in use and the larger of its own ceiling and baseline.
  lemma {:induction false} ChainStaysBelow(mode: Mode, cfg: Config, files: Files, es: seq<InstanceEnv>)
    ensures forall k :: 0 <= k < |Chain(mode, cfg, files, es)| ==>
      var ran := Chain(mode, cfg, files, es)[k];
      SafeFrom(ran.cfg, StartTag(ran.final.log)) ==> StagesFit(ran.cfg, ran.final.log, TopOf(ran.cfg))
    decreases es
  {
    hide Instance, SafeFrom, StagesFit, TopOf, StartTag;
    if es == [] {
    } else {
      InstanceStaysBelow(mode, cfg, files, es[0]);
      var r := Instance(mode, cfg, files, es[0]);
      if r.status.Restarting? {
        ChainStaysBelow(mode, r.status.next, r.files, es[1..]);
      }
    }
  }

  // --- Cadence ---

  // Every completed pass of the log lasts exactly the check interval, and from 120 seconds
  // up leaves a quarter of it, at least 30 seconds, for the final sleep.
  predicate CadenceKept(cfg: Config, log: Log) {
    match log
    case Begin(_) => true
    case Then(earlier, Paused(polled, rest)) =>
      && CadenceKept(cfg, earlier)
      && polled + rest == cfg.checkInterval
      && (cfg.checkInterval >= SHORTEST ==> 4 * rest >= cfg.checkInterval && rest >= 30)
    case Then(earlier, _) => CadenceKept(cfg, earlier)
  }

  // The intervals that a job can keep: any, unless it polls, and then those of at least 90.
  predicate KeepsTime(cfg: Config) { cfg.checkInterval >= 0 && (!cfg.doDeploy || cfg.checkInterval >= 90) }

  // No stage touches the clock.
  predicate SameClock(cfg: Config, before: Log, after: Log) {
    CadenceKept(cfg, before) ==> CadenceKept(cfg, after) && Clock(after) == Clock(before)
  }

  // Only a deploying job polls.
  predicate Waited(cfg: Config, waited: int, e: PassEnv) {
    waited == 0 || (cfg.doDeploy && waited == Total(Intervals(cfg.checkInterval), Polls(e)))
  }

  lemma DeployKeepsCadence(cfg: Config, s: JobState, e: PassEnv)
    requires s.status.Running? && s.waited == 0
    ensures var r := DeployStage(cfg, s, e);
      SameClock(cfg, s.log, r.log) && Waited(cfg, r.waited, e)
  {
    hide Intervals, Total, WriteFile, TagPath;
    var s1 := s.Note(Apply(s.strMax));
    assert SameClock(cfg, s.log, s1.log);
    var s2 := s1.Note(Ready);
    assert SameClock(cfg, s.log, s2.log);
    if e.cluster.Serves? {
      var s3 := s2.Note(Observed(e.cluster.tag));
      assert SameClock(cfg, s.log, s3.log);
      assert SameClock(cfg, s.log, s3.Note(Advanced(s.strMax)).log);
    }
  }

  lemma UpgradeKeepsCadence(cfg: Config, s: JobState, e: PassEnv)
    requires s.status.Running? && s.waited == 0
    ensures var r := Upgrade(cfg, s, e);
      SameClock(cfg, s.log, r.log) && Waited(cfg, r.waited, e)
  {
    hide Intervals, Total, WriteFile, TagPath, DeployStage;
    assert SameClock(cfg, s.log, s.Note(Build(s.strMax)).log);
    var s1 := BuildStage(cfg, s, e);
    assert SameClock(cfg, s.log, s1.log) && s1.waited == 0;
    if s1.status.Running? {
      var s2 := SyncStage(cfg, s1, e);
      assert SameClock(cfg, s.log, s2.log) && s2.waited == 0;
      if s2.status.Running? {
        DeployKeepsCadence(cfg, s2, e);
      }
    }
  }

  lemma EndKeepsCadence(mode: Mode, cfg: Config, s: JobState, e: PassEnv)
    requires s.status.Running? && CadenceKept(cfg, s.log) && KeepsTime(cfg) && Waited(cfg, s.waited, e)
    ensures var r := EndOfPass(mode, cfg, s, e);
      && CadenceKept(cfg, r.log)
      && (r.status.Running? ==> Clock(r.log) == Clock(s.log) + cfg.checkInterval)
      && (r.status.Restarting? && !mode.development ==> r.status.next.checkInterval >= SHORTEST)
  {
    hide Intervals, Total;
    PollsKeepTime(cfg.checkInterval, Polls(e));
    ReloadedIsClamped(mode, e.reloads);
    assert s.waited + Slept(cfg.checkInterval - s.waited) == cfg.checkInterval;
  }

  lemma PassKeepsCadence(mode: Mode, cfg: Config, s: JobState, e: PassEnv)
    requires s.status.Running? && CadenceKept(cfg, s.log) && KeepsTime(cfg)
    ensures var r := Pass(mode, cfg, s, e);
      && CadenceKept(cfg, r.log)
      && (r.status.Running? ==> Clock(r.log) == Clock(s.log) + cfg.checkInterval)
      && (r.status.Restarting? && !mode.development ==> r.status.next.checkInterval >= SHORTEST)
  {
    hide Candidate, ConvertTagToNumeric, HashOf, Upgrade, Intervals, Total, EndOfPass, WantsUpgrade;
    var choice := Candidate(cfg, e.tags);
    if choice.Chosen? {
      var s1 := Retarget(s, choice.n, choice.tag);
      assert Clock(s1.log) == Clock(s.log) && CadenceKept(cfg, s1.log);
      UpgradeKeepsCadence(cfg, s1, e);
      UpgradeNeverRestarts(cfg, s1, e);
      EndKeepsCadence(mode, cfg, s1, e);
      if Upgrade(cfg, s1, e).status.Running? {
        EndKeepsCadence(mode, cfg, Upgrade(cfg, s1, e), e);
      }
    }
  }

  lemma PollsKeepTime(configInterval: int, n: nat)
    requires n <= 5
    ensures var polled := Total(Intervals(configInterval), n);
      var rest := Slept(configInterval - polled);
      && polled >= 0
      && (configInterval >= 90 ==> polled + rest == configInterval)
      && (configInterval >= SHORTEST ==> 4 * rest >= configInterval && rest >= 30)
  {
    hide Intervals, Total;
    PartialTotals(configInterval, n);
    CadenceExactlyFrom90(configInterval);
    if configInterval >= 90 {
      assert PassLength(configInterval, n) == configInterval;
    }
    if configInterval >= SHORTEST {
      FinalSleepIsAQuarter(configInterval, n);
    }
  }

  lemma UpgradeNeverRestarts(cfg: Config, s: JobState, e: PassEnv)
    requires s.status.Running?
    ensures !Upgrade(cfg, s, e).status.Restarting?
  {
    hide WriteFile, Intervals, Total;
  }

  lemma {:induction false} ReloadedIsClamped(mode: Mode, reloads: seq<Reload>)
    ensures var st := Reloading(mode, reloads);
      && !st.Running?
      && (st.Restarting? ==> st.next.isActive && (!mode.development ==> st.next.checkInterval >= SHORTEST))
  {
    if reloads == [] {
    } else {
      ReloadedIsClamped(mode, reloads[1..]);
    }
  }

  // After n passes of a looping job exactly n check intervals have gone by, in every mode, if
  // it does not poll or its interval is at least 90.
  lemma {:induction false} RunKeepsCadence(mode: Mode, cfg: Config, s: JobState, es: seq<PassEnv>)
    requires CadenceKept(cfg, s.log) && KeepsTime(cfg) && !s.status.Restarting?
    ensures var r := Run(mode, cfg, s, es);
      && CadenceKept(cfg, r.log)
      && (r.status.Running? ==> Clock(r.log) == Clock(s.log) + |es| * cfg.checkInterval)
      && (r.status.Restarting? && !mode.development ==> r.status.next.checkInterval >= SHORTEST)
    decreases es
  {
    hide Pass;
    if es == [] || !s.status.Running? {
    } else {
      PassKeepsCadence(mode, cfg, s, es[0]);
      var s1 := Pass(mode, cfg, s, es[0]);
      if s1.status.Running? {
        RunKeepsCadence(mode, cfg, s1, es[1..]);
        assert (|es| - 1) * cfg.checkInterval + cfg.checkInterval == |es| * cfg.checkInterval;
      } else {
        StoppedStays(mode, cfg, s1, es[1..]);
      }
    }
  }

  // The cadence with its exact condition, over the runs of a job that starts with an upgrade
  // to a listed tag before it: after any number of completed passes just as many check
  // intervals have gone by, if and only if the job can keep its interval. Otherwise the first
  // pass already takes longer, when the deployment does not get ready.
  lemma KeepsTimeExactlyWhen(mode: Mode, cfg: Config, start: string, files: Files, tags: seq<string>, hashes: map<string, string>)
    requires !mode.once && Wants(cfg, start, tags, hashes) && Candidate(cfg, tags).tag in tags
    ensures KeepsTime(cfg) <==>
      forall es :: var r := Run(mode, cfg, LoopHead(start, files), es);
        r.status.Running? ==> Clock(r.log) == |es| * cfg.checkInterval
  {
    hide ConvertTagToNumeric, Candidate, HashOf, Run, Wants;
    var s := LoopHead(start, files);
    if KeepsTime(cfg) {
      forall es ensures var r := Run(mode, cfg, s, es); r.status.Running? ==> Clock(r.log) == |es| * cfg.checkInterval {
        RunKeepsCadence(mode, cfg, s, es);
      }
    } else {
      var e := StillEnv(tags, hashes).(readyAfter := 5);
      NotReadyOverruns(mode, cfg, start, files, e, tags, hashes);
      RunStep(mode, cfg, s, [e]);
      EmptyRun(mode, cfg, Pass(mode, cfg, s, e));
      assert [e][1..] == [];
      assert Clock(Run(mode, cfg, s, [e]).log) > |[e]| * cfg.checkInterval;
    }
  }

  lemma EmptyRun(mode: Mode, cfg: Config, s: JobState)
    ensures Run(mode, cfg, s, []) == s
  {
  }

  // A first pass that polls in vain takes longer than an interval that the job cannot keep.
  lemma NotReadyOverruns(mode: Mode, cfg: Config, start: string, files: Files, e: PassEnv, tags: seq<string>, hashes: map<string, string>)
    requires !mode.once && Still(e, tags, hashes) && e.readyAfter >= 5 && !KeepsTime(cfg)
    requires Wants(cfg, start, tags, hashes) && Candidate(cfg, tags).tag in tags
    ensures var r := Pass(mode, cfg, LoopHead(start, files), e); r.status.Running? && Clock(r.log) > cfg.checkInterval
  {
    hide ConvertTagToNumeric, Candidate, HashOf, WriteFile, Intervals, Total;
    var choice := Candidate(cfg, tags);
    var s1 := Retarget(LoopHead(start, files), choice.n, choice.tag);
    assert Clock(s1.log) == 0 && CadenceKept(cfg, s1.log);
    UpgradeKeepsCadence(cfg, s1, e);
    var s2 := Upgrade(cfg, s1, e);
    assert s2.status.Running? && Clock(s2.log) == 0;
    assert cfg.doDeploy ==> s2.waited == Total(Intervals(cfg.checkInterval), 5);
    IntervalsConserveBudget(cfg.checkInterval);
    assert cfg.doDeploy && cfg.checkInterval < 90 ==> s2.waited > cfg.checkInterval by {
      assert cfg.checkInterval < 90 ==> Budget(cfg.checkInterval) == 90;
    }
    PartialTotals(cfg.checkInterval, Polls(e));
  }

  // Over any chain of reloads every instance that can keep its interval does; and outside
  // development mode every instance can.
  lemma {:induction false} ChainKeepsCadence(mode: Mode, cfg: Config, files: Files, es: seq<InstanceEnv>)
    ensures forall k :: 0 <= k < |Chain(mode, cfg, files, es)| ==>
      var ran := Chain(mode, cfg, files, es)[k];
      && (KeepsTime(ran.cfg) ==> CadenceKept(ran.cfg, ran.final.log))
      && (!mode.development && cfg.checkInterval >= SHORTEST ==> KeepsTime(ran.cfg) && ran.cfg.checkInterval >= SHORTEST)
    decreases es
  {
    hide Instance, CadenceKept;
    if es == [] {
    } else {
      InstanceKeepsCadence(mode, cfg, files, es[0]);
      var r := Instance(mode, cfg, files, es[0]);
      if r.status.Restarting? {
        ChainKeepsCadence(mode, r.status.next, r.files, es[1..]);
      }
    }
  }

  lemma InstanceKeepsCadence(mode: Mode, cfg: Config, files: Files, e: InstanceEnv)
    ensures var r := Instance(mode, cfg, files, e);
      && (KeepsTime(cfg) ==> CadenceKept(cfg, r.log))
      && (r.status.Restarting? && !mode.development ==> r.status.next.checkInterval >= SHORTEST)
  {
    hide Run, StartUp;
    var s := StartUp(cfg, files, e.start);
    StartKeepsCadence(cfg, files, e.start);
    if KeepsTime(cfg) {
      RunKeepsCadence(mode, cfg, s, e.passes);
    }
    if Instance(mode, cfg, files, e).status.Restarting? {
      RestartingWasRunning(mode, cfg, files, e);
    }
  }

  lemma StartKeepsCadence(cfg: Config, files: Files, e: StartEnv)
    ensures CadenceKept(cfg, StartUp(cfg, files, e).log) && !StartUp(cfg, files, e).status.Restarting?
  {
    hide ConvertTagToNumeric, CompareTwoTags, TagPath;
  }
}
