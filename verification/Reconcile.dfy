/** One job instance: the choice of its start tag and the passes of its reconcile loop,
    as functions of what the environment answers. */
module Reconcile {
  import opened Tags
  import opened Polling

  // The fields of a job's configuration that steer the loop.
  datatype Config = Config(
    jobName: string, isActive: bool, checkInterval: int,
    doGitClone: bool, startTag: string, maxTag: string, prefix: string, startTagFile: string,
    doBuild: bool, doSync: bool, doDeploy: bool, kubeconfig: string)

  // The process-wide switches: -oncerun, and MODE=development.
  datatype Mode = Mode(once: bool, development: bool)

  // Reloading raises a short check interval, except in development mode.
  function Clamp(mode: Mode, cfg: Config): Config {
    if !mode.development && cfg.checkInterval < SHORTEST then cfg.(checkInterval := SHORTEST) else cfg
  }

  function TagPath(cfg: Config): string {
    (if cfg.startTagFile == "" then "/tmp/start-tag-file" else cfg.startTagFile) + "." + cfg.jobName
  }

  type Files = map<string, string>

  // A write succeeds, fails and leaves the file alone, or fails half-way.
  datatype WriteResult = Written | NotWritten | Garbled(left: string)

  function WriteFile(files: Files, path: string, content: string, w: WriteResult): Files {
    match w
    case Written => files[path := content]
    case NotWritten => files
    case Garbled(left) => files[path := left]
  }

  // What asking the cluster for the deployed tag gives. The pattern is built from
  // the configured prefix, and a pattern that does not compile panics.
  datatype Cluster = Serves(tag: string) | Unreachable | BadPattern

  // The answers of the environment while an instance starts.
  datatype StartEnv = StartEnv(
    shaOk: bool, fileReadable: bool, kubeconfigIsFile: bool, cluster: Cluster, write: WriteResult,
    sshOk: bool, repoOk: bool, checkoutOk: bool)

  datatype Sha = SameSha | ChangedSha | ShaFailed
  datatype Reload = Loaded(cfg: Config) | LoadFailed

  // The answers of the environment during one pass. `before` and `after` map annotated
  // tags to commit hashes before and after the pull; `tags` are all tags of the repository,
  // and `resolveOk` says whether the reference of a tag among them can be read; `readyAfter`
  // counts the polls that find the deployment not ready.
  datatype PassEnv = PassEnv(
    before: map<string, string>, checkoutOk: bool, pullOk: bool, listOk: bool,
    tags: seq<string>, after: map<string, string>, resolveOk: bool, tagCheckoutOk: bool,
    buildOk: bool, syncOk: bool, manifestOk: bool, contextOk: bool, applyOk: bool,
    readyAfter: nat, cluster: Cluster, write: WriteResult, sha: Sha, reloads: seq<Reload>)

  /** The record of a run, latest event last. An attempted stage is recorded whether or
      not its command succeeds. */
  datatype Log = Begin(start: string) | Then(earlier: Log, event: Event)
  datatype Event =
    | Target(n: int, tag: string)
    | Build(tag: string)
    | Sync(tag: string)
    | Apply(tag: string)
    | Ready
    | Observed(tag: string)
    | Advanced(tag: string)
    | Paused(polled: int, rest: int)

  datatype Status = Running | Returned | Crashed | Suspended | Restarting(next: Config)

  datatype JobState = JobState(
    cur: string, retry: int, nMax: int, strMax: string, waited: int,
    files: Files, log: Log, status: Status)
  {
    function Note(e: Event): JobState { this.(log := Then(log, e)) }
    function Stop(st: Status): JobState { this.(status := st) }
  }

  // --- Start ---

  function Ended(files: Files, status: Status): JobState {
    JobState("", 0, 0, "", 0, files, Begin(""), status)
  }

  function LoopHead(start: string, files: Files): JobState {
    JobState(start, 0, 0, "", 0, files, Begin(start), Running)
  }

  // The cluster's tag when a deploying job can read it, else the saved tag, else the configured one.
  function SelectedTag(cfg: Config, files: Files, e: StartEnv): string {
    if cfg.doDeploy && e.cluster.Serves? then e.cluster.tag
    else if e.fileReadable && TagPath(cfg) in files then files[TagPath(cfg)]
    else cfg.startTag
  }

  // The tag that a downgraded job starts over from.
  function ZeroOf(cfg: Config): string { cfg.prefix + "0.0.0" }

  // A start tag above the ceiling is replaced by the lowest tag of the prefix.
  function StartingTag(cfg: Config, selected: string): string {
    if CompareTwoTags(selected, cfg.maxTag, cfg.prefix).Is(-1) then ZeroOf(cfg) else selected
  }

  // The loop is entered only with a start tag strictly below the ceiling.
  predicate EntersLoop(cfg: Config, start: string) {
    CompareTwoTags(start, cfg.maxTag, cfg.prefix) == Compared(1)
  }

  function StartUp(cfg: Config, files: Files, e: StartEnv): JobState {
    if !cfg.isActive then Ended(files, Returned)
    else if !e.shaOk then Ended(files, Crashed)
    else if cfg.doDeploy && cfg.kubeconfig != "" && !e.kubeconfigIsFile then Ended(files, Crashed)
    else if cfg.doDeploy && e.cluster.BadPattern? then Ended(files, Crashed)
    else
      var selected := SelectedTag(cfg, files, e);
      if CompareTwoTags(selected, cfg.maxTag, cfg.prefix).ComparePanicked? then Ended(files, Crashed)
      else
        var start := StartingTag(cfg, selected);
        var saved := WriteFile(files, TagPath(cfg), start, e.write);
        if !e.write.Written? || !e.sshOk then Ended(saved, Crashed)
        else if !cfg.doGitClone then Ended(saved, Returned)
        else if !e.repoOk || !e.checkoutOk then Ended(saved, Crashed)
        else if CompareTwoTags(start, cfg.maxTag, cfg.prefix).ComparePanicked? then Ended(saved, Crashed)
        else if !EntersLoop(cfg, start) then Ended(saved, Returned)
        else LoopHead(start, saved)
  }

  // --- One pass ---

  function HashOf(hashes: map<string, string>, tag: string): string {
    if tag in hashes then hashes[tag] else ""
  }

  function TagsWithPrefix(tags: seq<string>, prefix: string): seq<string> {
    if tags == [] then []
    else
      var init, last := TagsWithPrefix(tags[..|tags| - 1], prefix), tags[|tags| - 1];
      if prefix <= last then init + [last] else init
  }

  function Candidate(cfg: Config, tags: seq<string>): Choice {
    MaxTag(TagsWithPrefix(tags, cfg.prefix), cfg.maxTag, cfg.prefix)
  }

  // A change of the target number forgets the failed attempts.
  function Retarget(s: JobState, n: int, tag: string): JobState {
    s.(retry := if s.retry > 0 && n != s.nMax then 0 else s.retry,
       nMax := n, strMax := tag, waited := 0).Note(Target(n, tag))
  }

  // A higher number calls for an upgrade; for the same tag, another commit does.
  predicate WantsUpgrade(cur: string, curNumber: int, n: int, tag: string, hashBefore: string, hashAfter: string) {
    if tag == cur then hashAfter != hashBefore else n > curNumber
  }

  function Advance(cfg: Config, s: JobState, w: WriteResult): JobState {
    s.(cur := s.strMax, files := WriteFile(s.files, TagPath(cfg), s.strMax, w)).Note(Advanced(s.strMax))
  }

  function BuildStage(cfg: Config, s: JobState, e: PassEnv): JobState {
    if !cfg.doBuild then s
    else
      var s1 := s.Note(Build(s.strMax));
      if !e.buildOk then s1.Stop(Crashed)
      else if cfg.doSync || cfg.doDeploy then s1
      else Advance(cfg, s1, e.write)
  }

  function SyncStage(cfg: Config, s: JobState, e: PassEnv): JobState {
    if !cfg.doSync then s
    else
      var s1 := s.Note(Sync(s.strMax));
      if !e.syncOk then s1.Stop(Crashed) else s1
  }

  // The number of waits that polling goes through.
  function Polls(e: PassEnv): nat { if e.readyAfter < 5 then e.readyAfter + 1 else 5 }

  function ObserveStage(cfg: Config, s: JobState, e: PassEnv): JobState {
    if e.readyAfter >= 5 then s
    else
      var s1 := s.Note(Ready);
      match e.cluster
      case Unreachable => s1.Stop(Crashed)
      case BadPattern => s1.Stop(Crashed)
      case Serves(tag) =>
        var s2 := s1.Note(Observed(tag));
        if tag == s.strMax then Advance(cfg, s2, e.write).(retry := 0) else s2
  }

  function DeployStage(cfg: Config, s: JobState, e: PassEnv): JobState {
    if !cfg.doDeploy then s
    else if !e.manifestOk || !e.contextOk then s.Stop(Returned)
    else
      var s1 := s.Note(Apply(s.strMax));
      if !e.applyOk then s1.Stop(Returned)
      else
        var s2 := s1.(retry := s1.retry + 1, waited := Total(Intervals(cfg.checkInterval), Polls(e)));
        var s3 := ObserveStage(cfg, s2, e);
        if s3.status.Running? && s3.retry > 3 then s3.Stop(Crashed) else s3
  }

  // A tag that the repository does not list has no reference to resolve.
  predicate Resolves(e: PassEnv, tag: string) { e.resolveOk && tag in e.tags }

  function Upgrade(cfg: Config, s: JobState, e: PassEnv): JobState {
    if !Resolves(e, s.strMax) || !e.tagCheckoutOk then s.Stop(Returned)
    else
      var s1 := BuildStage(cfg, s, e);
      if !s1.status.Running? then s1
      else
        var s2 := SyncStage(cfg, s1, e);
        if !s2.status.Running? then s2 else DeployStage(cfg, s2, e)
  }

  // A changed job file is read until it is active again; then a successor takes over.
  function Reloading(mode: Mode, reloads: seq<Reload>): Status {
    if reloads == [] then Suspended
    else
      match reloads[0]
      case LoadFailed => Returned
      case Loaded(cfg) =>
        if cfg.isActive then Restarting(Clamp(mode, cfg)) else Reloading(mode, reloads[1..])
  }

  function EndOfPass(mode: Mode, cfg: Config, s: JobState, e: PassEnv): JobState {
    if mode.once then s.Stop(Returned)
    else
      match e.sha
      case ShaFailed => s.Stop(Returned)
      case ChangedSha => s.Stop(Reloading(mode, e.reloads))
      case SameSha => s.Note(Paused(s.waited, Slept(cfg.checkInterval - s.waited)))
  }

  function Pass(mode: Mode, cfg: Config, s: JobState, e: PassEnv): JobState
    requires s.status.Running?
  {
    if !e.checkoutOk || !e.pullOk || !e.listOk then s.Stop(Returned)
    else
      match Candidate(cfg, e.tags)
      case ChoicePanicked => s.Stop(Crashed)
      case BadTag => s.Stop(Returned)
      case Chosen(n, tag) =>
        var s1 := Retarget(s, n, tag);
        var current := ConvertTagToNumeric(s.cur, cfg.prefix);
        if current.Panicked? then s1.Stop(Crashed)
        else
          var s2 := if WantsUpgrade(s.cur, NumberOrZero(current), n, tag, HashOf(e.before, s.cur), HashOf(e.after, tag))
                    then Upgrade(cfg, s1, e) else s1;
          if s2.status.Running? then EndOfPass(mode, cfg, s2, e) else s2
  }

  // --- Runs ---

  // The passes of one instance, until it stops or the given answers run out.
  function Run(mode: Mode, cfg: Config, s: JobState, es: seq<PassEnv>): JobState
    decreases es
  {
    if es == [] || !s.status.Running? then s
    else Run(mode, cfg, Pass(mode, cfg, s, es[0]), es[1..])
  }

  datatype InstanceEnv = InstanceEnv(start: StartEnv, passes: seq<PassEnv>)

  function Instance(mode: Mode, cfg: Config, files: Files, e: InstanceEnv): JobState {
    Run(mode, cfg, StartUp(cfg, files, e.start), e.passes)
  }

  // A job over its restarts: every instance with its final state, each under the
  // configuration its predecessor loaded and on the files its predecessor left.
  datatype Ran = Ran(cfg: Config, final: JobState)

  function Chain(mode: Mode, cfg: Config, files: Files, es: seq<InstanceEnv>): seq<Ran>
    decreases es
  {
    if es == [] then []
    else
      var r := Instance(mode, cfg, files, es[0]);
      [Ran(cfg, r)] + if r.status.Restarting? then Chain(mode, r.status.next, r.files, es[1..]) else []
  }

  // --- What a log says ---

  // The tag in use: the latest one advanced to, or the start tag.
  function Current(log: Log): string {
    match log
    case Begin(start) => start
    case Then(earlier, e) => if e.Advanced? then e.tag else Current(earlier)
  }

  // The latest target number, zero before the first pass.
  function LastTarget(log: Log): int {
    match log
    case Begin(_) => 0
    case Then(earlier, e) => if e.Target? then e.n else LastTarget(earlier)
  }

  // The applies since the last success or the last change of the target number.
  function Failures(log: Log): nat {
    match log
    case Begin(_) => 0
    case Then(earlier, Apply(_)) => Failures(earlier) + 1
    case Then(earlier, Advanced(_)) => 0
    case Then(earlier, Target(n, _)) => if n != LastTarget(earlier) then 0 else Failures(earlier)
    case Then(earlier, _) => Failures(earlier)
  }

  // The tag in use was, at some moment of the log, `tag`.
  predicate WasCurrent(log: Log, tag: string) {
    match log
    case Begin(start) => start == tag
    case Then(earlier, e) => (e.Advanced? && e.tag == tag) || WasCurrent(earlier, tag)
  }

  // The time spent in completed passes.
  function Clock(log: Log): int {
    match log
    case Begin(_) => 0
    case Then(earlier, e) => Clock(earlier) + if e.Paused? then e.polled + e.rest else 0
  }

  // The stages that act on the outside world.
  predicate IsStage(e: Event) { e.Build? || e.Sync? || e.Apply? }

  function StageTag(e: Event): string
    requires IsStage(e)
  {
    match e case Build(t) => t case Sync(t) => t case Apply(t) => t
  }

  // The number of stage events.
  function Stages(log: Log): nat {
    match log
    case Begin(_) => 0
    case Then(earlier, e) => Stages(earlier) + if IsStage(e) then 1 else 0
  }
}
