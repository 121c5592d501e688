/** The ceiling and the monotonicity of the tag in use, over whole runs of one instance. */
module Ceiling {
  import opened Tags
  import opened Reconcile

  function Number(cfg: Config, tag: string): Conversion { ConvertTagToNumeric(tag, cfg.prefix) }

  // The larger of ceiling and baseline under the prefix of the configuration.
  function TopOf(cfg: Config): int {
    var m := Number(cfg, cfg.maxTag);
    if cfg.prefix == "v" && (!m.Value? || m.n < 10000) then 10000 else if m.Value? then m.n else 0
  }

  // A tag in use from which no pass can go on to the literal baseline as a tag that does not
  // convert: if the literal carries the prefix, a repository that lists it as such a tag gives
  // no choice at all; if it does not, it passes for zero, which a tag of at least zero tops.
  predicate SafeFrom(cfg: Config, cur: string) {
    cfg.prefix <= BASELINE_TAG || (Number(cfg, cur).Value? && Number(cfg, cur).n >= 0)
  }

  lemma EnteringConverts(cfg: Config, start: string)
    requires EntersLoop(cfg, start)
    ensures Number(cfg, start).Value? && Number(cfg, cfg.maxTag).Value?
    ensures Number(cfg, start).n < Number(cfg, cfg.maxTag).n
    ensures cfg.maxTag != ""
  {
    NumbersDecide(start, cfg.maxTag, cfg.prefix);
    EmptyTagFails(cfg.prefix);
  }

  // An empty ceiling means v99.99.99 to GetMaxTag, yet a job with an empty ceiling never loops.
  lemma EmptyCeilingNeverLoops(cfg: Config, files: Files, e: StartEnv)
    requires cfg.maxTag == ""
    ensures !StartUp(cfg, files, e).status.Running?
  {
    if StartUp(cfg, files, e).status.Running? {
      EnteringConverts(cfg, StartUp(cfg, files, e).cur);
    }
  }

  lemma {:induction false} TagsWithPrefixFilters(tags: seq<string>, prefix: string, tag: string)
    ensures tag in TagsWithPrefix(tags, prefix) <==> tag in tags && prefix <= tag
  {
    if tags == [] {
    } else {
      TagsWithPrefixFilters(tags[..|tags| - 1], prefix, tag);
      assert tags == tags[..|tags| - 1] + [tags[|tags| - 1]];
    }
  }

  // And it keeps their order and number: listings are filtered part by part.
  lemma {:induction false} TagsWithPrefixInTwo(first: seq<string>, second: seq<string>, prefix: string)
    ensures TagsWithPrefix(first + second, prefix) == TagsWithPrefix(first, prefix) + TagsWithPrefix(second, prefix)
    ensures |second| == 1 ==> TagsWithPrefix(second, prefix) == if prefix <= second[0] then second else []
  {
    if second == [] {
      assert first + second == first;
    } else {
      var init, last := second[..|second| - 1], second[|second| - 1];
      assert (first + second)[..|first + second| - 1] == first + init;
      assert (first + second)[|first + second| - 1] == last;
      TagsWithPrefixInTwo(first, init, prefix);
      if |second| == 1 {
        assert second == [last] && init == [] && TagsWithPrefix(init, prefix) == [];
      }
    }
  }

  // The choice among the tags of a repository: there is one exactly when every tag under the
  // prefix converts, and then none of them at or below the ceiling is higher.
  lemma CandidateIsHighest(cfg: Config, tags: seq<string>)
    requires !Number(cfg, BASELINE_TAG).Panicked? && !Number(cfg, CeilingTag(cfg.maxTag)).Panicked?
    ensures var choice := Candidate(cfg, tags);
      && (choice.Chosen? <==> forall tag :: tag in tags && cfg.prefix <= tag ==> Number(cfg, tag).Value?)
      && (choice.Chosen? ==>
            && (forall tag :: tag in tags && cfg.prefix <= tag && Number(cfg, tag).n <= NumberOrZero(Number(cfg, CeilingTag(cfg.maxTag)))
                  ==> Number(cfg, tag).n <= choice.n)
            && choice.n >= NumberOrZero(Number(cfg, BASELINE_TAG))
            && (if choice.n == NumberOrZero(Number(cfg, BASELINE_TAG)) then choice.tag == BASELINE_TAG
                else choice.tag in tags && cfg.prefix <= choice.tag && Number(cfg, choice.tag) == Value(choice.n)
                     && choice.n <= NumberOrZero(Number(cfg, CeilingTag(cfg.maxTag)))))
  {
    hide ConvertTagToNumeric, TagsWithPrefix;
    var ceiling := NumberOrZero(Number(cfg, CeilingTag(cfg.maxTag)));
    var baseline := NumberOrZero(Number(cfg, BASELINE_TAG));
    var repoTags, number := TagsWithPrefix(tags, cfg.prefix), NumberingOf(cfg.prefix);
    BestOfIsArgmax(repoTags, ceiling, baseline, number);
    FailsExactlyOnBadTag(repoTags, ceiling, baseline, number);
    forall tag ensures tag in repoTags <==> tag in tags && cfg.prefix <= tag {
      TagsWithPrefixFilters(tags, cfg.prefix, tag);
    }
    hide BestOf, FirstWith;
    assert Candidate(cfg, tags) == BestOf(repoTags, ceiling, baseline, number);
    AllConvertAll(repoTags, cfg.prefix);
    var choice := Candidate(cfg, tags);
    if choice.Chosen? && choice.n != baseline {
      assert FirstWith(repoTags, number, choice.n, choice.tag);
      FirstWithIsMember(repoTags, number, choice.n, choice.tag);
    }
  }

  lemma AllConvertAll(tags: seq<string>, prefix: string)
    ensures AllConvert(tags, NumberingOf(prefix)) <==> forall tag :: tag in tags ==> ConvertTagToNumeric(tag, prefix).Value?
  {
    hide ConvertTagToNumeric;
    assert forall i :: 0 <= i < |tags| ==> NumberingOf(prefix)(tags[i]) == ConvertTagToNumeric(tags[i], prefix);
    if AllConvert(tags, NumberingOf(prefix)) {
      forall tag | tag in tags ensures ConvertTagToNumeric(tag, prefix).Value? {
        var i :| 0 <= i < |tags| && tags[i] == tag;
        assert NumberingOf(prefix)(tags[i]).Value?;
      }
    }
  }

  lemma FirstWithIsMember(tags: seq<string>, number: Numbering, n: int, tag: string)
    requires FirstWith(tags, number, n, tag)
    ensures tag in tags && number(tag) == Value(n)
  {
  }

  // A chosen tag is the literal or a tag of the repository under the prefix.
  lemma CandidateIsFromRepository(cfg: Config, tags: seq<string>)
    requires Candidate(cfg, tags).Chosen?
    ensures var tag := Candidate(cfg, tags).tag;
      tag == BASELINE_TAG || (tag in tags && cfg.prefix <= tag)
  {
    hide ConvertTagToNumeric, TagsWithPrefix;
    var ceiling := NumberOrZero(ConvertTagToNumeric(CeilingTag(cfg.maxTag), cfg.prefix));
    var baseline := NumberOrZero(ConvertTagToNumeric(BASELINE_TAG, cfg.prefix));
    BestOfIsArgmax(TagsWithPrefix(tags, cfg.prefix), ceiling, baseline, NumberingOf(cfg.prefix));
    TagsWithPrefixFilters(tags, cfg.prefix, Candidate(cfg, tags).tag);
  }

  // What a wanted upgrade to a tag of the repository aims at.
  lemma TargetFits(cfg: Config, tags: seq<string>, cur: string, n: int, tag: string, before: string, after: string)
    requires Number(cfg, cur).Value? && Number(cfg, cfg.maxTag).Value? && cfg.maxTag != ""
    requires Candidate(cfg, tags) == Chosen(n, tag) && tag in tags
    requires SafeFrom(cfg, cur)
    requires WantsUpgrade(cur, Number(cfg, cur).n, n, tag, before, after)
    ensures Number(cfg, tag) == Value(n) && Number(cfg, cur).n <= n
    ensures n <= Number(cfg, cfg.maxTag).n || (cfg.prefix == "v" && n == 10000)
  {
    hide ConvertTagToNumeric, TagsWithPrefix;
    BaselineByPrefix(cfg.prefix);
    var baseline := NumberOrZero(ConvertTagToNumeric(BASELINE_TAG, cfg.prefix));
    var repoTags := TagsWithPrefix(tags, cfg.prefix);
    BestOfIsArgmax(repoTags, Number(cfg, cfg.maxTag).n, baseline, NumberingOf(cfg.prefix));
    TagsWithPrefixFilters(tags, cfg.prefix, BASELINE_TAG);
  }

  // A stage acts on a tag that converts to the target of the pass, not below the tag in
  // use and not above `top`; and the tag in use only moves to such a tag.
  predicate Fits(cfg: Config, earlier: Log, tag: string, top: int) {
    && Number(cfg, tag) == Value(LastTarget(earlier))
    && Number(cfg, Current(earlier)).Value?
    && Number(cfg, Current(earlier)).n <= Number(cfg, tag).n <= top
  }

  predicate StagesFit(cfg: Config, log: Log, top: int) {
    match log
    case Begin(_) => true
    case Then(earlier, e) =>
      && StagesFit(cfg, earlier, top)
      && (IsStage(e) ==> Fits(cfg, earlier, StageTag(e), top))
      && (e.Advanced? ==> Fits(cfg, earlier, e.tag, top))
  }

  // At a loop head the tag in use converts, to a number from `low` to `top`.
  predicate WellFormed(cfg: Config, s: JobState, low: int, top: int) {
    match s.status
    case Running =>
      && StagesFit(cfg, s.log, top)
      && Number(cfg, s.cur).Value? && low <= Number(cfg, s.cur).n <= top
      && s.cur == Current(s.log) && s.nMax == LastTarget(s.log)
      && SafeFrom(cfg, s.cur)
    case _ => StagesFit(cfg, s.log, top)
  }

  // During an upgrade: the target fits the tag in use.
  predicate Aimed(cfg: Config, s: JobState, low: int, top: int) {
    WellFormed(cfg, s, low, top) && (s.status.Running? ==> Fits(cfg, s.log, s.strMax, top))
  }

  lemma BuildAndSyncFit(cfg: Config, s: JobState, e: PassEnv, low: int, top: int)
    requires s.status.Running? && Aimed(cfg, s, low, top)
    ensures var s1 := BuildStage(cfg, s, e);
      Aimed(cfg, s1, low, top) && (s1.status.Running? ==> Aimed(cfg, SyncStage(cfg, s1, e), low, top))
  {
    hide ConvertTagToNumeric, WriteFile;
    if cfg.doBuild {
      assert Aimed(cfg, s.Note(Build(s.strMax)), low, top);
    }
    assert Aimed(cfg, BuildStage(cfg, s, e), low, top);
  }

  lemma DeployFits(cfg: Config, s: JobState, e: PassEnv, low: int, top: int)
    requires s.status.Running? && Aimed(cfg, s, low, top)
    ensures WellFormed(cfg, DeployStage(cfg, s, e), low, top)
  {
    hide ConvertTagToNumeric, WriteFile;
    if cfg.doDeploy && e.manifestOk && e.contextOk {
      var s1 := s.Note(Apply(s.strMax));
      assert Aimed(cfg, s1, low, top);
      if e.applyOk && e.readyAfter < 5 {
        var s2 := s1.Note(Ready);
        assert Aimed(cfg, s2, low, top);
        if e.cluster.Serves? {
          assert Aimed(cfg, s2.Note(Observed(e.cluster.tag)), low, top);
        }
      }
    }
  }

  lemma PassFits(mode: Mode, cfg: Config, s: JobState, e: PassEnv, low: int, top: int)
    requires s.status.Running? && WellFormed(cfg, s, low, top)
    requires Number(cfg, cfg.maxTag).Value? && cfg.maxTag != "" && Number(cfg, cfg.maxTag).n <= top
    requires cfg.prefix == "v" ==> 10000 <= top
    ensures WellFormed(cfg, Pass(mode, cfg, s, e), low, top)
  {
    hide Candidate, ConvertTagToNumeric, HashOf, BuildStage, SyncStage, DeployStage, WantsUpgrade;
    var choice := Candidate(cfg, e.tags);
    if choice.Chosen? {
      var s1 := Retarget(s, choice.n, choice.tag);
      assert WellFormed(cfg, s1, low, top);
      if WantsUpgrade(s.cur, Number(cfg, s.cur).n, choice.n, choice.tag, HashOf(e.before, s.cur), HashOf(e.after, choice.tag))
         && Resolves(e, choice.tag) {
        TargetFits(cfg, e.tags, s.cur, choice.n, choice.tag, HashOf(e.before, s.cur), HashOf(e.after, choice.tag));
        BuildAndSyncFit(cfg, s1, e, low, top);
        var s2 := SyncStage(cfg, BuildStage(cfg, s1, e), e);
        if BuildStage(cfg, s1, e).status.Running? && s2.status.Running? {
          DeployFits(cfg, s2, e, low, top);
        }
      }
    }
  }

  lemma {:induction false} RunFits(mode: Mode, cfg: Config, s: JobState, es: seq<PassEnv>, low: int, top: int)
    requires WellFormed(cfg, s, low, top)
    requires Number(cfg, cfg.maxTag).Value? && cfg.maxTag != "" && Number(cfg, cfg.maxTag).n <= top
    requires cfg.prefix == "v" ==> 10000 <= top
    ensures WellFormed(cfg, Run(mode, cfg, s, es), low, top)
    decreases es
  {
    hide Pass, ConvertTagToNumeric;
    if es == [] || !s.status.Running? {
    } else {
      PassFits(mode, cfg, s, es[0], low, top);
      RunFits(mode, cfg, Pass(mode, cfg, s, es[0]), es[1..], low, top);
    }
  }

  predicate AnyStage(cfg: Config) { cfg.doBuild || cfg.doSync || cfg.doDeploy }

  // What decides, before the loop, whether the stages can be trusted to stay at or below `top`.
  predicate Guarded(cfg: Config, start: string, top: int) {
    !AnyStage(cfg) || (SafeFrom(cfg, start) && (cfg.prefix == "v" ==> 10000 <= top))
  }

  // Without a stage the log of a run holds none.
  lemma {:induction false} NoStageNoEvent(mode: Mode, cfg: Config, s: JobState, es: seq<PassEnv>, top: int)
    requires !AnyStage(cfg) && StagesFit(cfg, s.log, top)
    ensures StagesFit(cfg, Run(mode, cfg, s, es).log, top)
    decreases es
  {
    hide ConvertTagToNumeric, Candidate;
    if es == [] || !s.status.Running? {
    } else {
      NoStageNoEvent(mode, cfg, Pass(mode, cfg, s, es[0]), es[1..], top);
    }
  }

  // A repository whose only tag is the literal, where the first stage that is tried fails.
  const LITERAL_ONLY := PassEnv(map[], true, true, true, [BASELINE_TAG], map[], true, true,
    false, false, true, true, false, 0, Unreachable, Written, SameSha, [])

  lemma LiteralIsChosen(cfg: Config)
    requires Number(cfg, cfg.maxTag).Value? && (cfg.prefix == "v" || !(cfg.prefix <= BASELINE_TAG))
    ensures Candidate(cfg, [BASELINE_TAG]) == Chosen(if cfg.prefix == "v" then 10000 else 0, BASELINE_TAG) || cfg.maxTag == ""
  {
    hide ConvertTagToNumeric;
    BaselineByPrefix(cfg.prefix);
    var tags := [BASELINE_TAG];
    assert tags[..|tags| - 1] == [] && TagsWithPrefix([], cfg.prefix) == [];
    assert TagsWithPrefix(tags, cfg.prefix) == if cfg.prefix == "v" then tags else [];
    var ceiling, number := Number(cfg, cfg.maxTag).n, NumberingOf(cfg.prefix);
    assert BestOf([], ceiling, 10000, number) == Chosen(10000, BASELINE_TAG);
    assert cfg.prefix == "v" ==> BestOf(tags, ceiling, 10000, number) == Chosen(10000, BASELINE_TAG);
  }

  lemma UnguardedEscapes(mode: Mode, cfg: Config, start: string, files: Files, top: int)
    requires EntersLoop(cfg, start) && Number(cfg, cfg.maxTag).Value? && Number(cfg, cfg.maxTag).n <= top
    ensures !Guarded(cfg, start, top) ==> !StagesFit(cfg, Run(mode, cfg, LoopHead(start, files), [LITERAL_ONLY]).log, top)
  {
    hide ConvertTagToNumeric, Candidate, EntersLoop, WriteFile, EndOfPass;
    EnteringConverts(cfg, start);
    BaselineByPrefix(cfg.prefix);
    if !Guarded(cfg, start, top) {
      LiteralIsChosen(cfg);
      var s := LoopHead(start, files);
      var n := if cfg.prefix == "v" then 10000 else 0;
      var stage := if cfg.doBuild then Build(BASELINE_TAG) else if cfg.doSync then Sync(BASELINE_TAG) else Apply(BASELINE_TAG);
      var earlier := Then(Begin(start), Target(n, BASELINE_TAG));
      assert Upgrade(cfg, Retarget(s, n, BASELINE_TAG), LITERAL_ONLY).log == Then(earlier, stage);
      assert Pass(mode, cfg, s, LITERAL_ONLY).log == Then(earlier, stage);
      assert !Pass(mode, cfg, s, LITERAL_ONLY).status.Running?;
      assert Run(mode, cfg, s, [LITERAL_ONLY]) == Run(mode, cfg, Pass(mode, cfg, s, LITERAL_ONLY), [LITERAL_ONLY][1..]);
      assert !Fits(cfg, earlier, BASELINE_TAG, top);
    }
  }

  // The ceiling property with its exact condition. Every stage and every advance, in every
  // run of the loop, concerns a tag that converts, that is the target of its pass, and whose
  // number lies between that of the tag in use and `top` (the ceiling, or any bound above
  // it) - if and only if the literal baseline is harmless: under the prefix "v" it must not
  // exceed `top`, and under a prefix that it does not carry the start tag must not be negative.
  lemma StagesFitExactlyWhenGuarded(mode: Mode, cfg: Config, start: string, files: Files, top: int)
    requires EntersLoop(cfg, start)
    requires Number(cfg, cfg.maxTag).Value? && Number(cfg, cfg.maxTag).n <= top
    ensures Guarded(cfg, start, top) <==>
      forall es :: StagesFit(cfg, Run(mode, cfg, LoopHead(start, files), es).log, top)
  {
    hide ConvertTagToNumeric, Run;
    EnteringConverts(cfg, start);
    var s := LoopHead(start, files);
    if Guarded(cfg, start, top) {
      forall es ensures StagesFit(cfg, Run(mode, cfg, s, es).log, top) {
        if !AnyStage(cfg) {
          NoStageNoEvent(mode, cfg, s, es, top);
        } else {
          RunFits(mode, cfg, s, es, Number(cfg, start).n, top);
        }
      }
    } else {
      UnguardedEscapes(mode, cfg, start, files, top);
    }
  }

  // Loop heads are well formed: the ceiling and the tag in use convert, the latter to a
  // number from that of the start tag to the larger of ceiling and baseline, hence at or
  // below the ceiling whenever the ceiling reaches the baseline.
  lemma LoopHeadsConvert(mode: Mode, cfg: Config, start: string, files: Files, es: seq<PassEnv>)
    requires EntersLoop(cfg, start) && SafeFrom(cfg, start)
    ensures var r := Run(mode, cfg, LoopHead(start, files), es);
      r.status.Running? ==>
        && Number(cfg, cfg.maxTag).Value? && Number(cfg, start).Value? && Number(cfg, r.cur).Value?
        && Number(cfg, start).n <= Number(cfg, r.cur).n <= TopOf(cfg)
  {
    hide ConvertTagToNumeric, Run;
    EnteringConverts(cfg, start);
    RunFits(mode, cfg, LoopHead(start, files), es, Number(cfg, start).n, TopOf(cfg));
  }
}
