/** ParseFlagSet: flags may follow positional arguments. Go's flag package is modelled as its
    documentation describes it; the values a flag accepts are a parameter. */
module Flags {

  // Which flags are defined (true for boolean ones) and which values each accepts.
  datatype FlagSet = FlagSet(formal: map<string, bool>, accepts: (string, string) -> bool)

  // What the front of an argument list is: no flag, the terminator "--", a flag with its
  // value, or a flag that is an error; a flag takes up one or two arguments.
  datatype Front = NoFlag | Terminator | Assign(name: string, value: string, used: nat) | Bad(used: nat)

  predicate FlagLike(arg: string) { |arg| >= 2 && arg[0] == '-' }

  function IndexOfEquals(s: string): (i: nat)
    ensures i <= |s| && (i < |s| ==> s[i] == '=')
  {
    if s == "" || s[0] == '=' then 0 else 1 + IndexOfEquals(s[1..])
  }

  function ReadFront(f: FlagSet, args: seq<string>): (r: Front)
    ensures r.Assign? || r.Bad? ==> 1 <= r.used <= 2 && r.used <= |args|
  {
    if args == [] || !FlagLike(args[0]) then NoFlag
    else if args[0] == "--" then Terminator
    else
      var text := if args[0][1] == '-' then args[0][2..] else args[0][1..];
      if text == "" || text[0] == '-' || text[0] == '=' then Bad(1)
      else
        var eq := IndexOfEquals(text);
        var name := text[..eq];
        if name !in f.formal then Bad(1)
        else if eq < |text| then
          (if f.accepts(name, text[eq + 1..]) then Assign(name, text[eq + 1..], 1) else Bad(1))
        else if f.formal[name] then Assign(name, "true", 1)
        else if |args| < 2 then Bad(1)
        else if !f.accepts(name, args[1]) then Bad(2)
        else Assign(name, args[1], 2)
  }

  type Assignments = seq<(string, string)>

  // FlagSet.Parse: the assignments made, the arguments left, whether it failed, and whether
  // it stopped at a terminator.
  datatype Parsed = Parsed(made: Assignments, rest: seq<string>, failed: bool, terminated: bool)

  function Parse(f: FlagSet, args: seq<string>): (r: Parsed)
    ensures |r.rest| <= |args|
    decreases |args|
  {
    match ReadFront(f, args)
    case NoFlag => Parsed([], args, false, false)
    case Terminator => Parsed([], args[1..], false, true)
    case Bad(_) => Parsed([], args, true, false)
    case Assign(name, value, used) =>
      var r := Parse(f, args[used..]);
      r.(made := [(name, value)] + r.made)
  }

  // Parse consumes a prefix: what it leaves is a suffix of the arguments.
  lemma {:induction false} ParseLeavesSuffix(f: FlagSet, args: seq<string>)
    ensures var r := Parse(f, args); r.rest == args[|args| - |r.rest|..]
    decreases |args|
  {
    hide ReadFront;
    if !ReadFront(f, args).Assign? {
    } else {
      ParseLeavesSuffix(f, args[ReadFront(f, args).used..]);
    }
  }

  // The state of the flag set after ParseFlagSet: every assignment made, in order, the
  // arguments it reports as positional, and whether it returned an error.
  datatype Outcome = Outcome(made: Assignments, args: seq<string>, failed: bool)

  // What the rounds of the loop make and set aside.
  datatype Rounds = Rounds(made: Assignments, positional: seq<string>, failed: bool, terminated: bool)

  function AllRounds(f: FlagSet, args: seq<string>): Rounds
    decreases |args|
  {
    var r := Parse(f, args);
    if r.failed then Rounds(r.made, [], true, r.terminated)
    else if r.rest == [] then Rounds(r.made, [], false, r.terminated)
    else
      var more := AllRounds(f, r.rest[1..]);
      Rounds(r.made + more.made, [r.rest[0]] + more.positional, more.failed, r.terminated || more.terminated)
  }

  function ParseAnywhere(f: FlagSet, args: seq<string>): Outcome {
    var rounds := AllRounds(f, args);
    if rounds.failed then Outcome(rounds.made, [], true)
    else
      var last := Parse(f, rounds.positional);
      Outcome(rounds.made + last.made, last.rest, last.failed)
  }

  // `made` stands for the assignments that the flag set has recorded.
  method ParseFlagSet(f: FlagSet, arguments: seq<string>) returns (made: Assignments, narg: seq<string>, failed: bool)
    ensures var outcome := ParseAnywhere(f, arguments);
      made == outcome.made && failed == outcome.failed && (!AllRounds(f, arguments).failed ==> narg == outcome.args)
  {
    hide ReadFront, Parse;
    var positionalArgs: seq<string> := [];
    var args := arguments;
    made := [];
    ghost var goal := AllRounds(f, arguments);
    while true
      invariant var rest := AllRounds(f, args);
        && positionalArgs + rest.positional == goal.positional
        && rest.failed == goal.failed
      invariant made + AllRounds(f, args).made == goal.made
      decreases |args|
    {
      var r := Parse(f, args);
      ghost var later := if r.failed || r.rest == [] then [] else AllRounds(f, r.rest[1..]).made;
      assert AllRounds(f, args).made == r.made + later;
      assert made + (r.made + later) == made + r.made + later;
      made := made + r.made;
      if r.failed {
        return made, r.rest, true;
      }
      args := r.rest;
      if args == [] {
        assert made + [] == made && positionalArgs + [] == positionalArgs;
        break;
      }
      positionalArgs := positionalArgs + [args[0]];
      args := args[1..];
    }
    assert made == goal.made && positionalArgs == goal.positional && !goal.failed;
    var last := Parse(f, positionalArgs);
    made, narg, failed := made + last.made, last.rest, last.failed;
  }

  // --- What a flag looks like ---

  predicate IsFlagName(name: string) { name != "" && name[0] != '-' && '=' !in name }

  lemma {:induction false} EqualsSplits(name: string, more: string)
    requires '=' !in name
    ensures IndexOfEquals(name) == |name|
    ensures IndexOfEquals(name + "=" + more) == |name|
  {
    if name == "" {
    } else {
      assert (name + "=" + more)[1..] == name[1..] + "=" + more;
      EqualsSplits(name[1..], more);
    }
  }

  predicate IsDashes(dashes: string) { dashes == "-" || dashes == "--" }

  // A defined boolean flag is set to "true" by its name alone; any other takes the next
  // argument for its value.
  lemma FrontOfNamedFlag(f: FlagSet, dashes: string, name: string, rest: seq<string>)
    requires IsDashes(dashes) && IsFlagName(name)
    ensures ReadFront(f, [dashes + name] + rest) ==
      if name !in f.formal then Bad(1)
      else if f.formal[name] then Assign(name, "true", 1)
      else if rest == [] then Bad(1)
      else if f.accepts(name, rest[0]) then Assign(name, rest[0], 2)
      else Bad(2)
  {
    EqualsSplits(name, "");
    TextAfterDashes(dashes, name);
    assert name[..|name|] == name;
    var args := [dashes + name] + rest;
    assert rest != [] ==> args[1] == rest[0];
  }

  // Every defined flag takes a value after "=" and leaves the next argument alone.
  lemma FrontOfInlineFlag(f: FlagSet, dashes: string, name: string, value: string, rest: seq<string>)
    requires IsDashes(dashes) && IsFlagName(name)
    ensures ReadFront(f, [dashes + name + "=" + value] + rest) ==
      if name in f.formal && f.accepts(name, value) then Assign(name, value, 1) else Bad(1)
  {
    var text := name + "=" + value;
    EqualsSplits(name, value);
    assert dashes + name + "=" + value == dashes + text;
    TextAfterDashes(dashes, text);
    assert text[..|name|] == name && text[|name| + 1..] == value;
  }

  lemma TextAfterDashes(dashes: string, text: string)
    requires IsDashes(dashes) && text != "" && text[0] != '-'
    ensures var arg := dashes + text;
      FlagLike(arg) && arg != "--" && text == if arg[1] == '-' then arg[2..] else arg[1..]
  {
    assert (dashes + text)[|dashes|..] == text;
    assert (dashes + text)[|dashes|] == text[0];
  }

  // Anything else is no flag, the terminator, or malformed.
  lemma FrontOfOthers(f: FlagSet, arg: string, rest: seq<string>)
    ensures ReadFront(f, []) == NoFlag
    ensures arg == "" || arg[0] != '-' || arg == "-" ==> ReadFront(f, [arg] + rest) == NoFlag
    ensures arg == "--" ==> ReadFront(f, [arg] + rest) == Terminator
    ensures "---" <= arg || "--=" <= arg || "-=" <= arg ==> ReadFront(f, [arg] + rest) == Bad(1)
  {
  }

  function Rendered(made: Assignments): seq<string> {
    if made == [] then [] else ["-" + made[0].0 + "=" + made[0].1] + Rendered(made[1..])
  }

  predicate AllDefined(f: FlagSet, made: Assignments) {
    forall i :: 0 <= i < |made| ==> IsFlagName(made[i].0) && made[i].0 in f.formal && f.accepts(made[i].0, made[i].1)
  }

  // Parse reads written-out assignments back, all of them and in their order, and goes on
  // with the arguments after them.
  lemma {:induction false} ParseReadsRendered(f: FlagSet, made: Assignments, rest: seq<string>)
    requires AllDefined(f, made)
    ensures Parse(f, Rendered(made) + rest) == Parse(f, rest).(made := made + Parse(f, rest).made)
  {
    hide ReadFront, Parse, IndexOfEquals;
    if made == [] {
      assert Rendered(made) + rest == rest;
      assert made + Parse(f, rest).made == Parse(f, rest).made;
    } else {
      var (name, value) := made[0];
      var token, tail, later := "-" + name + "=" + value, Rendered(made[1..]) + rest, Parse(f, rest).made;
      assert Rendered(made) + rest == [token] + tail;
      ParseInlineFlag(f, name, value, tail);
      ParseReadsRendered(f, made[1..], rest);
      assert [(name, value)] + made[1..] == made;
      assert [(name, value)] + (made[1..] + later) == ([(name, value)] + made[1..]) + later;
    }
  }

  lemma ParseInlineFlag(f: FlagSet, name: string, value: string, rest: seq<string>)
    requires IsFlagName(name) && name in f.formal && f.accepts(name, value)
    ensures Parse(f, ["-" + name + "=" + value] + rest)
         == Parse(f, rest).(made := [(name, value)] + Parse(f, rest).made)
  {
    hide ReadFront, Parse;
    var args := ["-" + name + "=" + value] + rest;
    FrontOfInlineFlag(f, "-", name, value, rest);
    ParseAssign(f, args);
    assert args[1..] == rest;
  }

  // --- The rounds, read off the arguments ---

  // What is left of the arguments from the first flag on that is an error, if any.
  function FirstBad(f: FlagSet, args: seq<string>): (bad: seq<string>)
    ensures |bad| <= |args|
    decreases |args|
  {
    if args == [] then []
    else
      match ReadFront(f, args)
      case Bad(_) => args
      case Assign(_, _, used) => FirstBad(f, args[used..])
      case NoFlag => FirstBad(f, args[1..])
      case Terminator => if |args| == 1 then [] else FirstBad(f, args[2..])
  }

  // A terminator is met before any error.
  predicate MeetsTerminator(f: FlagSet, args: seq<string>)
    decreases |args|
  {
    args != [] &&
      match ReadFront(f, args)
      case Bad(_) => false
      case Assign(_, _, used) => MeetsTerminator(f, args[used..])
      case NoFlag => MeetsTerminator(f, args[1..])
      case Terminator => true
  }

  // The arguments that the rounds set aside: what is no flag, and what follows a terminator.
  function SetAside(f: FlagSet, args: seq<string>): seq<string>
    decreases |args|
  {
    if args == [] then []
    else
      match ReadFront(f, args)
      case Bad(_) => []
      case Assign(_, _, used) => SetAside(f, args[used..])
      case NoFlag => [args[0]] + SetAside(f, args[1..])
      case Terminator => if |args| == 1 then [] else [args[1]] + SetAside(f, args[2..])
  }

  lemma ParseAssign(f: FlagSet, args: seq<string>)
    requires ReadFront(f, args).Assign?
    ensures var front := ReadFront(f, args);
      Parse(f, args) == Parse(f, args[front.used..]).(made := [(front.name, front.value)] + Parse(f, args[front.used..]).made)
  {
    hide ReadFront;
  }

  lemma ParseStops(f: FlagSet, args: seq<string>)
    requires !ReadFront(f, args).Assign?
    ensures Parse(f, args) ==
      match ReadFront(f, args)
      case NoFlag => Parsed([], args, false, false)
      case Terminator => Parsed([], args[1..], false, true)
      case _ => Parsed([], args, true, false)
  {
    hide ReadFront;
  }

  lemma NoFlagFront(f: FlagSet, args: seq<string>)
    ensures ReadFront(f, args).NoFlag? <==> args == [] || !FlagLike(args[0])
  {
  }

  lemma RoundsAfterFlag(f: FlagSet, args: seq<string>)
    requires ReadFront(f, args).Assign?
    ensures var front, rest := ReadFront(f, args), AllRounds(f, args[ReadFront(f, args).used..]);
      AllRounds(f, args) == rest.(made := [(front.name, front.value)] + rest.made)
  {
    hide ReadFront, Parse;
    var front := ReadFront(f, args);
    ParseAssign(f, args);
    var r := Parse(f, args[front.used..]);
    if !r.failed && r.rest != [] {
      var more := AllRounds(f, r.rest[1..]);
      assert ([(front.name, front.value)] + r.made) + more.made == [(front.name, front.value)] + (r.made + more.made);
    }
  }

  // A round that makes no assignment sets one argument aside, ends the rounds, or fails.
  lemma RoundsAfterStop(f: FlagSet, args: seq<string>)
    requires args != [] && !ReadFront(f, args).Assign?
    ensures AllRounds(f, args) ==
      match ReadFront(f, args)
      case NoFlag =>
        var rest := AllRounds(f, args[1..]); rest.(positional := [args[0]] + rest.positional)
      case Terminator =>
        if |args| == 1 then Rounds([], [], false, true)
        else var rest := AllRounds(f, args[2..]); rest.(positional := [args[1]] + rest.positional, terminated := true)
      case _ => Rounds([], [], true, false)
  {
    hide ReadFront, Parse;
    ParseStops(f, args);
    var front := ReadFront(f, args);
    if front.NoFlag? {
      assert [] + AllRounds(f, args[1..]).made == AllRounds(f, args[1..]).made;
    } else if front.Terminator? && |args| > 1 {
      assert args[1..][1..] == args[2..];
      assert [] + AllRounds(f, args[2..]).made == AllRounds(f, args[2..]).made;
    }
  }

  lemma RoundsOfNothing(f: FlagSet)
    ensures AllRounds(f, []) == Rounds([], [], false, false)
  {
  }

  // The rounds fail exactly on a bad flag, and the arguments say what they set aside.
  lemma {:induction false} RoundsReadArguments(f: FlagSet, args: seq<string>)
    ensures var rounds := AllRounds(f, args);
      && (rounds.failed <==> FirstBad(f, args) != [])
      && (rounds.terminated <==> MeetsTerminator(f, args))
      && rounds.positional == SetAside(f, args)
    decreases |args|
  {
    hide ReadFront, AllRounds;
    var front := ReadFront(f, args);
    if args == [] {
      RoundsOfNothing(f);
    } else if front.Assign? {
      RoundsAfterFlag(f, args);
      RoundsReadArguments(f, args[front.used..]);
    } else {
      RoundsAfterStop(f, args);
      if front.NoFlag? {
        RoundsReadArguments(f, args[1..]);
      } else if front.Terminator? && |args| > 1 {
        RoundsReadArguments(f, args[2..]);
      }
    }
  }

  // --- Flags first ---

  // The arguments that flags take up, good or bad, and the others, each in their order.
  function FlagTokens(f: FlagSet, args: seq<string>): seq<string>
    decreases |args|
  {
    if args == [] then []
    else
      var front := ReadFront(f, args);
      if front.Assign? || front.Bad? then args[..front.used] + FlagTokens(f, args[front.used..])
      else FlagTokens(f, args[1..])
  }

  function Positionals(f: FlagSet, args: seq<string>): seq<string>
    decreases |args|
  {
    if args == [] then []
    else
      var front := ReadFront(f, args);
      if front.Assign? || front.Bad? then Positionals(f, args[front.used..])
      else [args[0]] + Positionals(f, args[1..])
  }

  function FlagsFirst(f: FlagSet, args: seq<string>): seq<string> { FlagTokens(f, args) + Positionals(f, args) }

  // Moving the flags first permutes the arguments.
  lemma {:induction false} FlagsFirstPermutes(f: FlagSet, args: seq<string>)
    ensures multiset(FlagsFirst(f, args)) == multiset(args)
    decreases |args|
  {
    hide ReadFront;
    var front := ReadFront(f, args);
    if args == [] {
    } else if front.Assign? || front.Bad? {
      FlagsFirstPermutes(f, args[front.used..]);
      assert args == args[..front.used] + args[front.used..];
    } else {
      FlagsFirstPermutes(f, args[1..]);
      assert args == [args[0]] + args[1..];
    }
  }

  // What is read at the front of a list depends only on the arguments it takes up.
  lemma FrontIsLocal(f: FlagSet, args: seq<string>, other: seq<string>)
    requires ReadFront(f, args).Assign? || (ReadFront(f, args).Bad? && (|args| >= 2 || other == []))
    ensures ReadFront(f, args[..ReadFront(f, args).used] + other) == ReadFront(f, args)
  {
    var used := ReadFront(f, args).used;
    var args' := args[..used] + other;
    assert args'[0] == args[0];
    if used == 2 {
      assert args'[1] == args[1];
    }
  }

  // And never on more than the first two arguments.
  lemma FrontLooksAtTwo(f: FlagSet, flag: string, value: string, more: seq<string>)
    ensures ReadFront(f, [flag, value] + more) == ReadFront(f, [flag, value])
    ensures ReadFront(f, [flag]).Bad? ==>
      var front := ReadFront(f, [flag, value]);
      front.Bad? || (front.Assign? && front.value == value && front.used == 2)
  {
  }

  predicate NoneFlagLike(args: seq<string>) { forall i :: 0 <= i < |args| ==> !FlagLike(args[i]) }

  // The last argument is a flag that lacks its value, and would take `value` for it.
  predicate Lacks(f: FlagSet, bad: seq<string>, value: string) {
    |bad| == 1 && ReadFront(f, [bad[0], value]).Assign?
  }

  // One Parse of the flag tokens, followed by any arguments that do not look like flags,
  // makes the assignments of the rounds and fails as they do; only a last flag that lacks its
  // value takes the first of those arguments for it.
  lemma {:induction false} TokensParseAsRounds(f: FlagSet, args: seq<string>, pos: seq<string>)
    requires !MeetsTerminator(f, args)
    requires |FirstBad(f, args)| <= 1 ==> NoneFlagLike(pos)
    ensures var r, rounds, bad := Parse(f, FlagTokens(f, args) + pos), AllRounds(f, args), FirstBad(f, args);
      if bad == [] then r == Parsed(rounds.made, pos, false, false)
      else if pos != [] && Lacks(f, bad, pos[0]) then !r.failed && |r.made| == |rounds.made| + 1
      else r.failed && r.made == rounds.made
    decreases |args|
  {
    hide ReadFront, Parse, AllRounds;
    var front := ReadFront(f, args);
    if args == [] {
      RoundsOfNothing(f);
      assert FlagTokens(f, args) + pos == pos;
      NoFlagFront(f, pos);
      ParseStops(f, pos);
    } else if front.Assign? {
      var rest := args[front.used..];
      RoundsAfterFlag(f, args);
      TokensParseAsRounds(f, rest, pos);
      var tail := FlagTokens(f, rest) + pos;
      var whole := args[..front.used] + tail;
      assert FlagTokens(f, args) + pos == whole;
      FrontIsLocal(f, args, tail);
      ParseAssign(f, whole);
      assert whole[front.used..] == tail;
    } else if front.NoFlag? {
      RoundsAfterStop(f, args);
      TokensParseAsRounds(f, args[1..], pos);
    } else {
      RoundsAfterStop(f, args);
      BadParsesBad(f, args, FlagTokens(f, args[front.used..]) + pos, pos);
      assert FlagTokens(f, args) + pos == args[..front.used] + (FlagTokens(f, args[front.used..]) + pos);
    }
  }

  // A bad flag at the front stays bad whatever follows it, unless it was the last argument
  // and lacks only its value.
  lemma BadParsesBad(f: FlagSet, args: seq<string>, tail: seq<string>, pos: seq<string>)
    requires ReadFront(f, args).Bad? && tail == FlagTokens(f, args[ReadFront(f, args).used..]) + pos
    requires |args| == 1 ==> NoneFlagLike(pos)
    ensures var r := Parse(f, args[..ReadFront(f, args).used] + tail);
      if pos != [] && Lacks(f, args, pos[0]) then !r.failed && |r.made| == 1
      else r.failed && r.made == []
  {
    hide ReadFront, Parse;
    var whole := args[..ReadFront(f, args).used] + tail;
    if |args| == 1 && pos != [] {
      assert tail == pos;
      assert whole == [args[0], pos[0]] + pos[1..];
      assert args == [args[0]];
      FrontLooksAtTwo(f, args[0], pos[0], pos[1..]);
      if Lacks(f, args, pos[0]) {
        ParseAssign(f, whole);
        assert whole[2..] == pos[1..];
        NoFlagFront(f, pos[1..]);
        ParseStops(f, pos[1..]);
      } else {
        ParseStops(f, whole);
      }
    } else {
      if |args| == 1 { assert tail == []; }
      FrontIsLocal(f, args, tail);
      ParseStops(f, whole);
    }
  }

  // Without a terminator the positional arguments are those that the rounds set aside, and
  // as long as a bad flag can only be the last argument, none of them looks like a flag.
  lemma {:induction false} PositionalsAreSetAside(f: FlagSet, args: seq<string>)
    requires !MeetsTerminator(f, args)
    ensures FirstBad(f, args) == [] ==> Positionals(f, args) == SetAside(f, args)
    ensures |FirstBad(f, args)| <= 1 ==> NoneFlagLike(Positionals(f, args))
    decreases |args|
  {
    hide ReadFront;
    var front := ReadFront(f, args);
    if args == [] {
    } else if front.Assign? {
      PositionalsAreSetAside(f, args[front.used..]);
    } else if front.NoFlag? {
      NoFlagFront(f, args);
      PositionalsAreSetAside(f, args[1..]);
    }
  }

  // The closing Parse leaves the positional arguments alone exactly when the first of them
  // does not look like a flag.
  lemma LastParseIsFaithful(f: FlagSet, positional: seq<string>)
    ensures Parse(f, positional) == Parsed([], positional, false, false)
       <==> positional == [] || !FlagLike(positional[0])
  {
    hide ReadFront, Parse;
    NoFlagFront(f, positional);
    if ReadFront(f, positional).Assign? {
      ParseAssign(f, positional);
    } else {
      ParseStops(f, positional);
    }
  }

  // The family on which flags-first parsing goes wrong: the first bad flag is the last
  // argument, it lacks only its value, and the first positional argument would do for one.
  predicate StealsPositional(f: FlagSet, args: seq<string>) {
    var pos := Positionals(f, args);
    pos != [] && Lacks(f, FirstBad(f, args), pos[0])
  }

  // ParseFlagSet equals flags-first parsing, with its exact condition: without a terminator
  // it makes the same assignments in the same order, and fails or succeeds, as one Parse of
  // the flags-first permutation, if and only if that permutation does not hand a positional
  // argument to a last flag that lacks its value. And where it succeeds it reports the
  // positional arguments in their order.
  lemma ParseFlagSetIsFlagsFirst(f: FlagSet, args: seq<string>)
    requires !MeetsTerminator(f, args)
    ensures var outcome, first := ParseAnywhere(f, args), Parse(f, FlagsFirst(f, args));
      && (outcome.made == first.made && outcome.failed == first.failed <==> !StealsPositional(f, args))
      && (!outcome.failed ==> outcome.args == first.rest == Positionals(f, args))
  {
    hide ReadFront, Parse, AllRounds, Positionals, FlagTokens;
    var rounds := AllRounds(f, args);
    RoundsReadArguments(f, args);
    PositionalsAreSetAside(f, args);
    TokensParseAsRounds(f, args, Positionals(f, args));
    if !rounds.failed {
      LastParseIsFaithful(f, rounds.positional);
      assert rounds.made + [] == rounds.made;
    }
  }

  // --- The closing Parse ---

  // The first k arguments are complete flags.
  predicate AllFlags(f: FlagSet, args: seq<string>, k: nat)
    requires k <= |args|
    decreases |args|
  {
    k == 0 ||
      var front := ReadFront(f, args);
      front.Assign? && front.used <= k && AllFlags(f, args[front.used..], k - front.used)
  }

  // A bad flag comes right after complete ones.
  ghost predicate StartsBadly(f: FlagSet, args: seq<string>) {
    exists k :: 0 <= k < |args| && AllFlags(f, args, k) && ReadFront(f, args[k..]).Bad?
  }

  lemma {:induction false} ParseFailsExactlyWhen(f: FlagSet, args: seq<string>)
    ensures Parse(f, args).failed <==> StartsBadly(f, args)
    decreases |args|
  {
    hide ReadFront, Parse;
    var front := ReadFront(f, args);
    if front.Assign? {
      var rest := args[front.used..];
      ParseAssign(f, args);
      ParseFailsExactlyWhen(f, rest);
      if StartsBadly(f, rest) {
        var k :| 0 <= k < |rest| && AllFlags(f, rest, k) && ReadFront(f, rest[k..]).Bad?;
        assert args[front.used + k..] == rest[k..];
        assert AllFlags(f, args, front.used + k);
      }
      if StartsBadly(f, args) {
        var k :| 0 <= k < |args| && AllFlags(f, args, k) && ReadFront(f, args[k..]).Bad?;
        assert args[0..] == args;
        assert rest[k - front.used..] == args[k..];
      }
    } else {
      ParseStops(f, args);
      assert args[0..] == args;
      if front.Bad? {
        assert args != [] by { NoFlagFront(f, args); }
        assert AllFlags(f, args, 0);
      }
    }
  }

  // ParseFlagSet fails exactly on a bad flag among the arguments, or on one among the leading
  // flags of what was set aside. The second is the closing Parse, which should never fail.
  lemma FailsExactlyWhen(f: FlagSet, args: seq<string>)
    ensures ParseAnywhere(f, args).failed <==> FirstBad(f, args) != [] || StartsBadly(f, SetAside(f, args))
  {
    hide AllRounds, Parse, FirstBad, SetAside, StartsBadly;
    RoundsReadArguments(f, args);
    ParseFailsExactlyWhen(f, SetAside(f, args));
  }

  // The first argument set aside looks like a flag exactly when a terminator comes right
  // before it and only complete flags before that. So only there the closing Parse can fail
  // or make an assignment.
  lemma {:induction false} FirstSetAside(f: FlagSet, args: seq<string>)
    ensures var pos := SetAside(f, args);
      pos != [] && FlagLike(pos[0]) <==>
      exists k :: 0 <= k < |args| - 1 && AllFlags(f, args, k) && ReadFront(f, args[k..]).Terminator? && FlagLike(args[k + 1])
    decreases |args|
  {
    hide ReadFront;
    var front := ReadFront(f, args);
    assert args[0..] == args;
    if args == [] {
    } else if front.Assign? {
      var rest := args[front.used..];
      FirstSetAside(f, rest);
      forall k | 0 <= k < |rest| - 1 && AllFlags(f, rest, k) && ReadFront(f, rest[k..]).Terminator? && FlagLike(rest[k + 1])
        ensures AllFlags(f, args, front.used + k) && args[front.used + k..] == rest[k..] && args[front.used + k + 1] == rest[k + 1]
      {
      }
      forall k | 0 <= k < |args| - 1 && AllFlags(f, args, k) && ReadFront(f, args[k..]).Terminator?
        ensures front.used <= k && rest[k - front.used..] == args[k..]
      {
      }
    } else {
      NoFlagFront(f, args);
      assert AllFlags(f, args, 0);
    }
  }

  // It does fail on some command line.
  lemma LastParseCanFail(f: FlagSet)
    requires "x" !in f.formal
    ensures !AllRounds(f, ["--", "-x"]).failed && ParseAnywhere(f, ["--", "-x"]).failed
  {
    var args := ["--", "-x"];
    assert args[1..] == ["-x"] && ["-x"][1..] == [];
    assert "-x"[1..] == "x" && IndexOfEquals("x") == 1 && "x"[..1] == "x";
    assert ReadFront(f, args) == Terminator && ReadFront(f, ["-x"]) == Bad(1);
    hide ReadFront;
    RoundsOfNothing(f);
    assert AllRounds(f, args) == Rounds([], ["-x"], false, true);
  }

  // A flag that lacks its value fails in place, though its flags-first permutation parses.
  lemma FlagsFirstCanSucceedAlone(f: FlagSet)
    requires "x" in f.formal && !f.formal["x"] && f.accepts("x", "a")
    ensures FlagsFirst(f, ["a", "-x"]) == ["-x", "a"]
    ensures ParseAnywhere(f, ["a", "-x"]).failed && !Parse(f, ["-x", "a"]).failed
  {
    var args := ["a", "-x"];
    assert args[1..] == ["-x"] && ["-x"][1..] == [];
    assert "-x"[1..] == "x" && IndexOfEquals("x") == 1 && "x"[..1] == "x";
    assert ReadFront(f, args) == NoFlag && ReadFront(f, ["-x"]) == Bad(1);
    assert ReadFront(f, ["-x", "a"]) == Assign("x", "a", 2);
    hide ReadFront;
    assert FirstBad(f, args) == FirstBad(f, ["-x"]) == ["-x"];
    assert Positionals(f, args) == ["a"] + Positionals(f, ["-x"]) == ["a"];
    assert FlagTokens(f, args) == FlagTokens(f, ["-x"]) == ["-x"];
    hide FirstBad, Positionals, FlagTokens, Parse;
    RoundsReadArguments(f, args);
    ParseAssign(f, ["-x", "a"]);
    assert ["-x", "a"][2..] == [];
    NoFlagFront(f, []);
    ParseStops(f, []);
  }
}
