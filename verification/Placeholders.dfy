/** Placeholder substitution in job files: {{$NAME}} from the environment, then
    {{ThisConfig:SECTION:FIELD}} from the parsed configuration itself. */
module Placeholders {
  import opened GoStrings

  const CLOSE := "}}"
  const ENV_OPEN := "{{$"
  const CONFIG_OPEN := "{{ThisConfig:"

  // unicode.IsSpace
  predicate IsSpace(c: char) {
    || '\t' <= c <= '\r' || c == ' ' || c == '\U{0085}' || c == '\U{00A0}' || c == '\U{1680}'
    || '\U{2000}' <= c <= '\U{200A}' || c == '\U{2028}' || c == '\U{2029}' || c == '\U{202F}'
    || c == '\U{205F}' || c == '\U{3000}'
  }

  // strings.TrimSpace
  function TrimSpace(s: string): string {
    if s == "" then s
    else if IsSpace(s[0]) then TrimSpace(s[1..])
    else if IsSpace(s[|s| - 1]) then TrimSpace(s[..|s| - 1])
    else s
  }

  predicate AllSpace(s: string) { forall i :: 0 <= i < |s| ==> IsSpace(s[i]) }

  // Trimming cuts spaces off both ends, all of them, and nothing else.
  lemma {:induction false} TrimSpaceTrims(s: string) returns (left: string, right: string)
    ensures s == left + TrimSpace(s) + right && AllSpace(left) && AllSpace(right)
    ensures var r := TrimSpace(s); r != "" ==> !IsSpace(r[0]) && !IsSpace(r[|r| - 1])
    decreases |s|
  {
    hide IsSpace;
    left, right := "", "";
    if s != "" && IsSpace(s[0]) {
      var init;
      init, right := TrimSpaceTrims(s[1..]);
      left := [s[0]] + init;
      var r := TrimSpace(s[1..]);
      assert TrimSpace(s) == r;
      hide TrimSpace;
      assert s == [s[0]] + (init + r + right);
      assert [s[0]] + (init + r + right) == left + r + right;
    } else if s != "" && IsSpace(s[|s| - 1]) {
      var last := [s[|s| - 1]];
      var tail;
      left, tail := TrimSpaceTrims(s[..|s| - 1]);
      right := tail + last;
      var r := TrimSpace(s[..|s| - 1]);
      assert TrimSpace(s) == r;
      hide TrimSpace;
      assert s == (left + r + tail) + last;
      assert (left + r + tail) + last == left + r + right;
    }
  }

  // The length of the shortest text before the next "}}", if no line break comes first.
  function LazyUpToClose(s: string): (r: Option<nat>)
    ensures r.Some? ==> r.value + 2 <= |s|
  {
    if CLOSE <= s then Some(0)
    else if s == "" || s[0] == '\n' then None
    else
      match LazyUpToClose(s[1..])
      case None => None
      case Some(n) => Some(n + 1)
  }

  // The submatches of `open(.*?)}}`, leftmost first and without overlap.
  function FindAll(s: string, open: string): seq<string>
    decreases |s|
  {
    if s == "" then []
    else if open <= s && LazyUpToClose(s[|open|..]).Some? then
      var n := LazyUpToClose(s[|open|..]).value;
      [s[|open|..|open| + n]] + FindAll(s[|open| + n + 2..], open)
    else FindAll(s[1..], open)
  }

  // strings.ReplaceAll for a nonempty old text.
  function ReplaceAll(s: string, old_: string, new_: string): string
    requires old_ != ""
    decreases |s|
  {
    if s == "" then ""
    else if old_ <= s then new_ + ReplaceAll(s[|old_|..], old_, new_)
    else [s[0]] + ReplaceAll(s[1..], old_, new_)
  }

  type Values = string -> string

  // One ReplaceAll per match, in the order of the matches.
  function ReplaceEach(s: string, names: seq<string>, open: string, values: Values): string
    requires open != ""
    decreases |names|
  {
    if names == [] then s
    else ReplaceEach(ReplaceAll(s, open + names[0] + CLOSE, values(names[0])), names[1..], open, values)
  }

  // GetEnvVar with an empty default.
  function EnvValues(env: map<string, string>): Values {
    (name: string) => if name in env then env[name] else ""
  }

  method ReplaceEnvs(content: string, env: map<string, string>) returns (contentString: string)
    ensures var text := TrimSpace(content);
      contentString == ReplaceEach(text, FindAll(text, ENV_OPEN), ENV_OPEN, EnvValues(env))
  {
    contentString := TrimSpace(content);
    var matches := FindAll(contentString, ENV_OPEN);
    ghost var goal := ReplaceEach(contentString, matches, ENV_OPEN, EnvValues(env));
    for i := 0 to |matches|
      invariant ReplaceEach(contentString, matches[i..], ENV_OPEN, EnvValues(env)) == goal
    {
      var replacedText := ENV_OPEN + matches[i] + CLOSE;
      var replacingText := EnvValues(env)(matches[i]);
      assert matches[i..][1..] == matches[i + 1..];
      contentString := ReplaceAll(contentString, replacedText, replacingText);
    }
  }

  // --- What the library does, on every text ---

  // The spaces are those of Unicode's White_Space property.
  lemma SpacesAre(c: char)
    ensures IsSpace(c) <==> c in {'\t', '\n', '\U{000B}', '\U{000C}', '\r', ' ', '\U{0085}', '\U{00A0}', '\U{1680}',
      '\U{2000}', '\U{2001}', '\U{2002}', '\U{2003}', '\U{2004}', '\U{2005}', '\U{2006}', '\U{2007}', '\U{2008}',
      '\U{2009}', '\U{200A}', '\U{2028}', '\U{2029}', '\U{202F}', '\U{205F}', '\U{3000}'}
  {
  }

  predicate ClosesAt(s: string, k: nat) { k + 2 <= |s| && s[k] == '}' && s[k + 1] == '}' }

  predicate RunsOn(s: string, k: nat) { k < |s| && !ClosesAt(s, k) && s[k] != '\n' }

  // The lazy match ends at the first "}}", and there is none across a line break.
  lemma {:induction false} LazyStopsAtFirstClose(s: string, n: nat)
    ensures LazyUpToClose(s) == Some(n) <==> ClosesAt(s, n) && forall k :: 0 <= k < n ==> RunsOn(s, k)
  {
    assert CLOSE <= s <==> ClosesAt(s, 0);
    if s == "" || n == 0 {
    } else {
      var t := s[1..];
      LazyStopsAtFirstClose(t, n - 1);
      forall k: nat ensures ClosesAt(t, k) == ClosesAt(s, k + 1) && RunsOn(t, k) == RunsOn(s, k + 1) {}
      if RunsOn(s, 0) && (forall k :: 0 <= k < n - 1 ==> RunsOn(t, k)) {
        forall k | 0 <= k < n ensures RunsOn(s, k) {
          if k > 0 { assert RunsOn(t, k - 1); }
        }
      }
    }
  }

  predicate MatchesAt(s: string, k: nat, open: string) {
    k + |open| <= |s| && open <= s[k..] && LazyUpToClose(s[k + |open|..]).Some?
  }

  // Matches are found from the left: the first one, and then those in what follows it.
  lemma {:induction false} FindAllFromTheLeft(before: string, open: string, tail: string, n: nat)
    requires open != "" && LazyUpToClose(tail) == Some(n)
    requires forall j :: 0 <= j < |before| ==> !MatchesAt(before + (open + tail), j, open)
    ensures FindAll(before + (open + tail), open) == [tail[..n]] + FindAll(tail[n + 2..], open)
  {
    hide FindAll, LazyUpToClose, MatchesAt;
    var rest := open + tail;
    if before == "" {
      FindsAtFront(open, tail, n);
      assert before + rest == rest;
    } else {
      var s := before + rest;
      assert s[1..] == before[1..] + rest;
      forall j | 0 <= j < |before[1..]| ensures !MatchesAt(before[1..] + rest, j, open) {
        MatchesLater(s, j, open);
      }
      FindAllFromTheLeft(before[1..], open, tail, n);
      FindUnfolds(s, open);
    }
  }

  // And none is found where none is.
  lemma {:induction false} FindAllNothing(s: string, open: string)
    requires open != "" && forall j :: 0 <= j < |s| ==> !MatchesAt(s, j, open)
    ensures FindAll(s, open) == []
  {
    hide LazyUpToClose, MatchesAt;
    if s == "" {
    } else {
      hide FindAll;
      forall j | 0 <= j < |s[1..]| ensures !MatchesAt(s[1..], j, open) {
        MatchesLater(s, j, open);
      }
      FindAllNothing(s[1..], open);
      FindUnfolds(s, open);
    }
  }

  lemma FindUnfolds(s: string, open: string)
    requires open != "" && s != "" && !MatchesAt(s, 0, open)
    ensures FindAll(s, open) == FindAll(s[1..], open)
  {
    hide LazyUpToClose;
    assert s[0..] == s;
  }

  lemma MatchesLater(s: string, j: nat, open: string)
    requires s != ""
    ensures MatchesAt(s[1..], j, open) == MatchesAt(s, j + 1, open)
  {
    hide LazyUpToClose;
    if j + 1 + |open| <= |s| {
      assert s[1..][j..] == s[j + 1..] && s[1..][j + |open|..] == s[j + 1 + |open|..];
    }
  }

  lemma {:induction false} ReplaceAllSkips(s: string, old_: string, new_: string, k: nat)
    requires old_ != "" && k <= |s| && forall j :: 0 <= j < k ==> !(old_ <= s[j..])
    ensures ReplaceAll(s, old_, new_) == s[..k] + ReplaceAll(s[k..], old_, new_)
    decreases k
  {
    hide ReplaceAll;
    if k == 0 {
      assert s[0..] == s;
    } else {
      assert s[0..] == s && !(old_ <= s[0..]);
      ReplaceUnfolds(s, old_, new_);
      var t := s[1..];
      forall j | 0 <= j < k - 1 ensures !(old_ <= t[j..]) {
        assert t[j..] == s[j + 1..];
        assert !(old_ <= s[j + 1..]);
      }
      ReplaceAllSkips(t, old_, new_, k - 1);
      var rest := ReplaceAll(s[k..], old_, new_);
      assert t[k - 1..] == s[k..] && [s[0]] + t[..k - 1] == s[..k];
      assert [s[0]] + (t[..k - 1] + rest) == ([s[0]] + t[..k - 1]) + rest;
    }
  }

  // And so are the occurrences that ReplaceAll replaces.
  lemma ReplaceAllFromTheLeft(s: string, old_: string, new_: string, k: nat)
    requires old_ != "" && k <= |s| && forall j :: 0 <= j < k ==> !(old_ <= s[j..])
    ensures old_ <= s[k..] ==> ReplaceAll(s, old_, new_) == s[..k] + (new_ + ReplaceAll(s[k + |old_|..], old_, new_))
    ensures k == |s| ==> ReplaceAll(s, old_, new_) == s
  {
    ReplaceAllSkips(s, old_, new_, k);
    hide ReplaceAll;
    ReplaceUnfolds(s[k..], old_, new_);
    if old_ <= s[k..] {
      assert s[k..][|old_|..] == s[k + |old_|..];
    }
  }

  // --- Templates ---

  // A text seen as literal pieces and placeholders.
  datatype Piece = Text(text: string) | Hole(name: string)
  type Template = seq<Piece>

  function Show(p: Piece, open: string): string {
    match p case Text(text) => text case Hole(name) => open + name + CLOSE
  }

  function Flat(t: Template, open: string): string {
    if t == [] then "" else Show(t[0], open) + Flat(t[1..], open)
  }

  function Names(t: Template): seq<string> {
    if t == [] then []
    else (if t[0].Hole? then [t[0].name] else []) + Names(t[1..])
  }

  // Simultaneous substitution: every placeholder becomes its value, once.
  function Substitute(t: Template, values: Values): Template {
    if t == [] then []
    else [if t[0].Hole? then Text(values(t[0].name)) else t[0]] + Substitute(t[1..], values)
  }

  // Substitution of the placeholders with the given name only.
  function SubstituteOne(t: Template, name: string, value: string): Template {
    if t == [] then []
    else [if t[0] == Hole(name) then Text(value) else t[0]] + SubstituteOne(t[1..], name, value)
  }

  // An opening marker is "{{" and then something without braces.
  predicate IsOpen(open: string) {
    |open| >= 3 && open[0] == '{' && open[1] == '{' && forall i :: 2 <= i < |open| ==> open[i] != '{' && open[i] != '}'
  }

  // No marker starts inside the text; and unless it is the end of everything, no marker
  // could start there and be completed by what follows.
  predicate Clean(x: string, open: string, final: bool) {
    x == "" || (!(open <= x) && (final || !(x <= open)) && Clean(x[1..], open, final))
  }

  predicate IsName(name: string) {
    forall i :: 0 <= i < |name| ==> name[i] != '{' && name[i] != '}' && name[i] != '\n'
  }

  predicate WellFormed(t: Template, open: string) {
    t != [] ==>
      && (match t[0] case Text(x) => Clean(x, open, |t| == 1) case Hole(name) => IsName(name))
      && WellFormed(t[1..], open)
  }

  predicate NoBrace(value: string) {
    forall i :: 0 <= i < |value| ==> value[i] != '{'
  }

  // A value without an opening brace neither holds nor begins a marker.
  lemma {:induction false} NoBraceIsClean(value: string, open: string, final: bool)
    requires IsOpen(open) && NoBrace(value)
    ensures Clean(value, open, final)
  {
    if value == "" {
    } else {
      NoBraceIsClean(value[1..], open, final);
    }
  }

  // --- Finding the placeholders ---

  lemma {:induction false} FindSkipsText(x: string, rest: string, open: string)
    requires IsOpen(open) && Clean(x, open, rest == "")
    ensures FindAll(x + rest, open) == FindAll(rest, open)
  {
    if x == "" {
      assert x + rest == rest;
    } else {
      assert (x + rest)[1..] == x[1..] + rest;
      NotOpenAt(x, rest, open);
      FindSkipsText(x[1..], rest, open);
    }
  }

  lemma PrefixOfConcat(p: string, x: string, rest: string)
    ensures p <= x + rest <==> if |p| <= |x| then p <= x else x <= p && p[|x|..] <= rest
  {
    var s := x + rest;
    if |p| <= |x| {
      assert s[..|p|] == x[..|p|];
    } else if |p| <= |s| {
      assert s[..|p|] == x + rest[..|p| - |x|];
    }
  }

  lemma NotOpenAt(x: string, rest: string, open: string)
    requires x != "" && Clean(x, open, rest == "")
    ensures !(open <= x + rest)
  {
    PrefixOfConcat(open, x, rest);
  }

  lemma LongerPrefix(open: string, more: string, s: string)
    ensures open + more <= s ==> open <= s
  {
    if open + more <= s {
      assert open == (open + more)[..|open|];
    }
  }

  lemma {:induction false} LazyFindsName(name: string, rest: string)
    requires IsName(name)
    ensures LazyUpToClose(name + CLOSE + rest) == Some(|name|)
  {
    var s := name + CLOSE + rest;
    if name == "" {
      assert CLOSE <= s;
    } else {
      assert s[0] == name[0];
      assert s[1..] == name[1..] + CLOSE + rest;
      LazyFindsName(name[1..], rest);
    }
  }

  // The matches are the placeholders of the template, in order.
  lemma {:induction false} FindAllFindsNames(t: Template, open: string)
    requires IsOpen(open) && WellFormed(t, open)
    ensures FindAll(Flat(t, open), open) == Names(t)
  {
    if t == [] {
    } else {
      hide FindAll;
      var rest := Flat(t[1..], open);
      FindAllFindsNames(t[1..], open);
      match t[0]
      case Text(x) =>
        if rest == "" && |t| > 1 { CleanFinal(x, open); }
        FindSkipsText(x, rest, open);
      case Hole(name) => FindsHole(name, rest, open);
    }
  }

  lemma FindsAtFront(open: string, tail: string, n: nat)
    requires open != "" && LazyUpToClose(tail) == Some(n)
    ensures FindAll(open + tail, open) == [tail[..n]] + FindAll(tail[n + 2..], open)
  {
    hide LazyUpToClose;
    var s := open + tail;
    assert s[|open|..] == tail;
    assert s[|open|..|open| + n] == tail[..n];
    assert s[|open| + n + 2..] == tail[n + 2..];
  }

  lemma FindsHole(name: string, rest: string, open: string)
    requires IsOpen(open) && IsName(name)
    ensures FindAll(open + name + CLOSE + rest, open) == [name] + FindAll(rest, open)
  {
    hide FindAll, LazyUpToClose, IsName;
    var tail := name + CLOSE + rest;
    LazyFindsName(name, rest);
    FindsAtFront(open, tail, |name|);
    assert tail[..|name|] == name && tail[|name| + 2..] == rest;
    assert open + tail == open + name + CLOSE + rest;
  }

  lemma {:induction false} CleanFinal(x: string, open: string)
    requires Clean(x, open, false)
    ensures Clean(x, open, true)
  {
    if x == "" {
    } else {
      CleanFinal(x[1..], open);
    }
  }

  // --- Replacing the placeholders of one name ---

  lemma ReplaceUnfolds(s: string, target: string, value: string)
    requires target != ""
    ensures ReplaceAll(s, target, value) ==
      if s == "" then ""
      else if target <= s then value + ReplaceAll(s[|target|..], target, value)
      else [s[0]] + ReplaceAll(s[1..], target, value)
  {
  }

  function Marker(open: string, name: string): string { open + name + CLOSE }

  lemma {:induction false} ReplaceSkipsText(x: string, rest: string, target: string, value: string)
    requires target != "" && Clean(x, target, rest == "")
    ensures ReplaceAll(x + rest, target, value) == x + ReplaceAll(rest, target, value)
  {
    hide ReplaceAll;
    if x == "" {
      assert x + rest == rest;
    } else {
      var head, tail, after := [x[0]], x[1..], ReplaceAll(rest, target, value);
      NotOpenAt(x, rest, target);
      ReplaceSkipsText(tail, rest, target, value);
      hide Clean;
      ReplaceUnfolds(x + rest, target, value);
      assert (x + rest)[0] == x[0] && (x + rest)[1..] == tail + rest;
      assert ReplaceAll(x + rest, target, value) == head + (tail + after);
      assert head + (tail + after) == (head + tail) + after && head + tail == x;
    }
  }

  // Where no marker starts, no longer text that begins with a marker does.
  lemma {:induction false} CleanOfLonger(x: string, open: string, more: string, final: bool)
    requires Clean(x, open, final)
    ensures Clean(x, open + more, final)
  {
    if x == "" {
    } else {
      LongerPrefix(open, more, x);
      PrefixOfConcat(x, open, more);
      CleanOfLonger(x[1..], open, more, final);
    }
  }

  lemma CleanOfMarker(x: string, open: string, name: string, final: bool)
    requires Clean(x, open, final)
    ensures Clean(x, Marker(open, name), final)
  {
    CleanOfLonger(x, open, name + CLOSE, final);
    assert open + (name + CLOSE) == Marker(open, name);
  }

  lemma SamePrefixSameName(other: string, rest: string, open: string, name: string)
    requires IsName(other) && IsName(name) && Marker(open, name) <= Marker(open, other) + rest
    ensures name == other
  {
    var target, s := Marker(open, name), Marker(open, other) + rest;
    var b, tail := other + CLOSE + rest, s[|target|..];
    assert s == open + b && s == target + tail;
    assert b == s[|open|..] == name + CLOSE + tail;
    LazyFindsName(other, rest);
    LazyFindsName(name, tail);
    assert name == b[..|name|] && other == b[..|other|];
  }

  // No marker starts inside a placeholder after its first character.
  lemma TailIsClean(name: string, open: string)
    requires IsOpen(open) && IsName(name)
    ensures Clean(Marker(open, name)[1..], open, false)
  {
    var tail := Marker(open, name)[1..];
    assert tail[1] == open[2];
    assert tail[1..] == open[2..] + name + CLOSE;
    assert NoBrace(tail[1..]);
    NoBraceIsClean(tail[1..], open, false);
    assert open[1] != tail[1];
  }

  // No placeholder touches one of another name.
  lemma MarkersAreApart(other: string, open: string, name: string)
    requires IsOpen(open) && IsName(other) && IsName(name) && other != name
    ensures Clean(Marker(open, other), Marker(open, name), false)
  {
    var hole, target := Marker(open, other), Marker(open, name);
    if target <= hole {
      assert target <= hole + "";
      SamePrefixSameName(other, "", open, name);
    }
    if hole <= target {
      assert hole <= target + "";
      SamePrefixSameName(name, "", open, other);
    }
    TailIsClean(other, open);
    CleanOfMarker(hole[1..], open, name, false);
  }

  // A template as it stands when the placeholders of one name are about to be replaced: no
  // placeholder of that name starts in a text, or could be completed by what follows.
  predicate Ready(t: Template, target: string) {
    t != [] ==>
      && (match t[0] case Text(x) => Clean(x, target, |t| == 1) case Hole(name) => IsName(name))
      && Ready(t[1..], target)
  }

  lemma {:induction false} WellFormedIsReady(t: Template, open: string, name: string)
    requires WellFormed(t, open)
    ensures Ready(t, Marker(open, name))
  {
    if t == [] {
    } else {
      WellFormedIsReady(t[1..], open, name);
      if t[0].Text? {
        CleanOfMarker(t[0].text, open, name, |t| == 1);
      }
    }
  }

  lemma {:induction false} ReplaceAllSubstitutesOne(t: Template, open: string, name: string, value: string)
    requires IsOpen(open) && IsName(name) && Ready(t, Marker(open, name))
    ensures ReplaceAll(Flat(t, open), Marker(open, name), value) == Flat(SubstituteOne(t, name, value), open)
  {
    if t == [] {
    } else {
      var rest, target := Flat(t[1..], open), Marker(open, name);
      ReplaceAllSubstitutesOne(t[1..], open, name, value);
      var t' := SubstituteOne(t, name, value);
      assert t'[1..] == SubstituteOne(t[1..], name, value);
      match t[0]
      case Text(x) =>
        if rest == "" && |t| > 1 { CleanFinal(x, target); }
        ReplaceSkipsText(x, rest, target, value);
      case Hole(other) =>
        if other == name {
          assert (target + rest)[|target|..] == rest;
        } else {
          MarkersAreApart(other, open, name);
          if rest == "" { CleanFinal(Marker(open, other), target); }
          ReplaceSkipsText(Marker(open, other), rest, target, value);
        }
    }
  }

  lemma {:induction false} SubstituteOneKeepsReady(t: Template, open: string, name: string, value: string, target: string)
    requires Ready(t, target) && Clean(value, target, false)
    ensures Ready(SubstituteOne(t, name, value), target)
    ensures |SubstituteOne(t, name, value)| == |t|
  {
    if t == [] {
    } else {
      SubstituteOneKeepsReady(t[1..], open, name, value, target);
      var t' := SubstituteOne(t, name, value);
      assert t'[1..] == SubstituteOne(t[1..], name, value);
      CleanFinal(value, target);
    }
  }

  // --- Sequential equals simultaneous ---

  // A list of names that covers the placeholders of the template.
  predicate Covers(names: seq<string>, t: Template) {
    forall i :: 0 <= i < |t| && t[i].Hole? ==> t[i].name in names
  }

  lemma {:induction false} SubstituteOneAt(t: Template, name: string, value: string)
    ensures var t' := SubstituteOne(t, name, value);
      |t'| == |t| && forall i :: 0 <= i < |t| ==> t'[i] == if t[i] == Hole(name) then Text(value) else t[i]
  {
    if t == [] {
    } else {
      SubstituteOneAt(t[1..], name, value);
    }
  }

  lemma {:induction false} SubstituteAt(t: Template, values: Values)
    ensures var t' := Substitute(t, values);
      |t'| == |t| && forall i :: 0 <= i < |t| ==> t'[i] == if t[i].Hole? then Text(values(t[i].name)) else t[i]
  {
    if t == [] {
    } else {
      SubstituteAt(t[1..], values);
    }
  }

  lemma SubstituteAbsorbsOne(t: Template, name: string, values: Values)
    ensures Substitute(SubstituteOne(t, name, values(name)), values) == Substitute(t, values)
  {
    SubstituteOneAt(t, name, values(name));
    SubstituteAt(t, values);
    SubstituteAt(SubstituteOne(t, name, values(name)), values);
  }

  // Putting in the value of `a` cannot make a placeholder of `b` that would be replaced: none
  // starts in that value, to its end or beyond, unless `b` stands for its own placeholder.
  predicate Harmless(a: string, b: string, open: string, values: Values) {
    values(b) == Marker(open, b) || Clean(values(a), Marker(open, b), false)
  }

  predicate AllHarmless(names: seq<string>, open: string, values: Values) {
    forall i, j :: 0 <= i < |names| && 0 <= j < |names| ==> Harmless(names[i], names[j], open, values)
  }

  // The template is ready for every name that changes anything.
  predicate ReadyForAll(t: Template, names: seq<string>, open: string, values: Values) {
    forall i :: 0 <= i < |names| && values(names[i]) != Marker(open, names[i]) ==> Ready(t, Marker(open, names[i]))
  }

  // Replacing names one after another is the simultaneous substitution: for every list
  // of names that covers the template, so whatever its order and its duplicates.
  lemma {:induction false} SequentialIsSimultaneous(t: Template, open: string, names: seq<string>, values: Values)
    requires IsOpen(open) && ReadyForAll(t, names, open, values)
    requires Covers(names, t) && forall i :: 0 <= i < |names| ==> IsName(names[i])
    requires AllHarmless(names, open, values)
    ensures ReplaceEach(Flat(t, open), names, open, values) == Flat(Substitute(t, values), open)
    decreases |names|
  {
    hide Clean, Ready, ReplaceAll, IsName;
    if names == [] {
      SubstituteAt(t, values);
      assert Substitute(t, values) == t;
    } else {
      var name, value := names[0], values(names[0]);
      var t' := SubstituteOne(t, name, value);
      if value == Marker(open, name) {
        ReplaceBySelf(Flat(t, open), value);
        SubstituteSelf(t, open, name);
      } else {
        ReplaceAllSubstitutesOne(t, open, name, value);
      }
      forall i | 0 <= i < |names[1..]| && values(names[1..][i]) != Marker(open, names[1..][i])
        ensures Ready(t', Marker(open, names[1..][i]))
      {
        assert Harmless(names[0], names[i + 1], open, values);
        SubstituteOneKeepsReady(t, open, name, value, Marker(open, names[i + 1]));
      }
      SubstitutedIsCovered(t, names, value);
      SequentialIsSimultaneous(t', open, names[1..], values);
      SubstituteAbsorbsOne(t, name, values);
    }
  }

  lemma SubstitutedIsCovered(t: Template, names: seq<string>, value: string)
    requires names != [] && Covers(names, t)
    ensures Covers(names[1..], SubstituteOne(t, names[0], value))
  {
    var t' := SubstituteOne(t, names[0], value);
    SubstituteOneAt(t, names[0], value);
    forall i | 0 <= i < |t'| && t'[i].Hole? ensures t'[i].name in names[1..] {
      assert t[i].name in names && t[i].name != names[0];
    }
  }

  lemma {:induction false} ReplaceBySelf(s: string, target: string)
    requires target != ""
    ensures ReplaceAll(s, target, target) == s
    decreases |s|
  {
    hide ReplaceAll;
    ReplaceUnfolds(s, target, target);
    if s == "" {
    } else if target <= s {
      ReplaceBySelf(s[|target|..], target);
    } else {
      ReplaceBySelf(s[1..], target);
    }
  }

  lemma {:induction false} SubstituteSelf(t: Template, open: string, name: string)
    ensures Flat(SubstituteOne(t, name, Marker(open, name)), open) == Flat(t, open)
  {
    if t == [] {
    } else {
      SubstituteSelf(t[1..], open, name);
      var t' := SubstituteOne(t, name, Marker(open, name));
      assert t'[1..] == SubstituteOne(t[1..], name, Marker(open, name));
    }
  }

  lemma {:induction false} NamesCover(t: Template, open: string)
    requires WellFormed(t, open)
    ensures Covers(Names(t), t)
    ensures forall i :: 0 <= i < |Names(t)| ==> IsName(Names(t)[i])
    ensures forall name :: name in Names(t) <==> exists i :: 0 <= i < |t| && t[i] == Hole(name)
  {
    if t == [] {
    } else {
      NamesCover(t[1..], open);
      forall i | 0 <= i < |t| && t[i].Hole? ensures t[i].name in Names(t) {
        if i > 0 { assert t[1..][i - 1] == t[i]; }
      }
      forall name | name in Names(t) ensures exists i :: 0 <= i < |t| && t[i] == Hole(name) {
        if name in Names(t[1..]) {
          var i :| 0 <= i < |t| - 1 && t[1..][i] == Hole(name);
          assert t[i + 1] == Hole(name);
        } else {
          assert t[0] == Hole(name);
        }
      }
    }
  }

  // --- Exactly when ---

  // The loop gives the simultaneous substitution of the template.
  predicate LoopIsSimultaneous(t: Template, open: string, values: Values)
    requires IsOpen(open)
  {
    var text := Flat(t, open);
    ReplaceEach(text, FindAll(text, open), open, values) == Flat(Substitute(t, values), open)
  }

  lemma HarmlessLoopIsSimultaneous(t: Template, open: string, values: Values)
    requires IsOpen(open) && WellFormed(t, open) && AllHarmless(Names(t), open, values)
    ensures LoopIsSimultaneous(t, open, values)
  {
    hide Clean, Ready, ReplaceAll, FindAll, IsName, Harmless;
    FindAllFindsNames(t, open);
    NamesCover(t, open);
    forall i | 0 <= i < |Names(t)| ensures Ready(t, Marker(open, Names(t)[i])) {
      WellFormedIsReady(t, open, Names(t)[i]);
    }
    SequentialIsSimultaneous(t, open, Names(t), values);
  }

  // Replacing shifts the length by the same sign at every occurrence.
  lemma {:induction false} ReplaceLength(s: string, target: string, value: string)
    requires target != ""
    ensures |value| <= |target| ==> |ReplaceAll(s, target, value)| <= |s|
    ensures |value| >= |target| ==> |ReplaceAll(s, target, value)| >= |s|
    decreases |s|
  {
    hide ReplaceAll;
    ReplaceUnfolds(s, target, value);
    if s == "" {
    } else if target <= s {
      ReplaceLength(s[|target|..], target, value);
    } else {
      ReplaceLength(s[1..], target, value);
    }
  }

  // Replacing a text that occurs by another one changes something.
  lemma {:induction false} ReplaceChanges(s: string, target: string, value: string, k: nat)
    requires target != "" && value != target && k <= |s| && target <= s[k..]
    ensures ReplaceAll(s, target, value) != s
    decreases |s|
  {
    hide ReplaceAll;
    ReplaceUnfolds(s, target, value);
    if target <= s {
      var rest := s[|target|..];
      assert s == target + rest;
      ReplaceLength(rest, target, value);
      var r := ReplaceAll(s, target, value);
      assert r == value + ReplaceAll(rest, target, value);
      if |value| == |target| {
        assert r[..|target|] == value && s[..|target|] == target;
      }
    } else {
      assert s[k..] == s[1..][k - 1..];
      ReplaceChanges(s[1..], target, value, k - 1);
      assert ReplaceAll(s, target, value)[1..] == ReplaceAll(s[1..], target, value);
    }
  }

  // A placeholder at the end is replaced by itself, since it cannot overlap another one.
  lemma {:induction false} ReplaceAtEnd(s: string, target: string, value: string)
    requires target != "" && Clean(target[1..], target, false)
    ensures ReplaceAll(s + target, target, value) == ReplaceAll(s, target, value) + value
    decreases |s|
  {
    hide ReplaceAll;
    var whole := s + target;
    ReplaceUnfolds(s, target, value);
    ReplaceUnfolds(whole, target, value);
    if s == "" {
      assert whole == target && target[|target|..] == "";
      ReplaceUnfolds("", target, value);
    } else if target <= s {
      assert whole[|target|..] == s[|target|..] + target;
      ReplaceAtEnd(s[|target|..], target, value);
    } else {
      PrefixOfConcat(target, s, target);
      if |s| < |target| {
        CleanSuffix(target[1..], |s| - 1, target);
        assert target[1..][|s| - 1..] == target[|s|..];
      }
      assert whole[1..] == s[1..] + target;
      ReplaceAtEnd(s[1..], target, value);
    }
  }

  lemma {:induction false} CleanSuffix(x: string, k: nat, target: string)
    requires k <= |x| && Clean(x, target, false)
    ensures Clean(x[k..], target, false)
  {
    if k == 0 {
      assert x[0..] == x;
    } else {
      CleanSuffix(x[1..], k - 1, target);
      assert x[1..][k - 1..] == x[k..];
    }
  }

  // Where a text is not clean, a marker starts that ends in it or after it.
  lemma {:induction false} UncleanAt(x: string, target: string) returns (k: nat)
    requires !Clean(x, target, false)
    ensures k < |x| && (target <= x[k..] || x[k..] <= target)
  {
    if target <= x || x <= target {
      k := 0;
      assert x[0..] == x;
    } else {
      k := UncleanAt(x[1..], target);
      assert x[1..][k..] == x[k + 1..];
      k := k + 1;
    }
  }

  // The template that shows the harm: the placeholder of `a`, what is missing of the
  // placeholder of `b` that starts in the value of `a`, and a placeholder of `b`, so that the
  // loop comes to it.
  lemma HarmShows(a: string, b: string, open: string, values: Values) returns (t: Template)
    requires IsOpen(open) && IsName(a) && IsName(b) && !Harmless(a, b, open, values)
    ensures WellFormed(t, open) && !LoopIsSimultaneous(t, open, values)
  {
    hide FindAll, IsName, IsOpen;
    var v, target := values(a), Marker(open, b);
    var k := UncleanAt(v, target);
    var w := v[k..];
    var rest := if target <= w then "" else target[|w|..];
    assert Clean(rest, open, false) by {
      TailIsClean(b, open);
      if rest != "" {
        CleanSuffix(target[1..], |w| - 1, open);
        assert target[1..][|w| - 1..] == rest;
      }
    }
    t := [Hole(a), Text(rest), Hole(b)];
    HarmIsWellFormed(a, rest, b, open);
    FindAllFindsNames(t, open);
    assert (v + rest)[k..] == w + rest;
    assert target <= (v + rest)[k..];
    LoopReplacesTwice(a, rest, b, open, values, k);
  }

  lemma HarmIsWellFormed(a: string, rest: string, b: string, open: string)
    requires IsName(a) && IsName(b) && Clean(rest, open, false)
    ensures var t := [Hole(a), Text(rest), Hole(b)]; WellFormed(t, open) && Names(t) == [a, b]
  {
    hide Clean, IsName;
    var t := [Hole(a), Text(rest), Hole(b)];
    assert t[1..] == [Text(rest), Hole(b)] && t[1..][1..] == [Hole(b)] && [Hole(b)][1..] == [];
    assert WellFormed([Hole(b)], open) && Names([Hole(b)]) == [b];
    assert WellFormed(t[1..], open) && Names(t[1..]) == [b];
  }

  lemma FlatOfThree(first: string, second: string, last: Piece, open: string)
    ensures Flat([Text(first), Text(second), last], open) == first + second + Show(last, open)
  {
    var t := [Text(first), Text(second), last];
    assert t[1..] == [Text(second), last] && t[1..][1..] == [last] && [last][1..] == [];
    assert Flat([last], open) == Show(last, open);
    assert Flat(t[1..], open) == second + Show(last, open);
  }

  lemma LoopReplacesTwice(a: string, rest: string, b: string, open: string, values: Values, k: nat)
    requires IsOpen(open) && IsName(a) && IsName(b) && values(b) != Marker(open, b)
    requires WellFormed([Hole(a), Text(rest), Hole(b)], open)
    requires var x := values(a) + rest; k <= |x| && Marker(open, b) <= x[k..]
    ensures var t := [Hole(a), Text(rest), Hole(b)];
      ReplaceEach(Flat(t, open), [a, b], open, values) != Flat(Substitute(t, values), open)
  {
    hide Clean, IsName, WellFormed;
    var t, v, u, target := [Hole(a), Text(rest), Hole(b)], values(a), values(b), Marker(open, b);
    var x, last := v + rest, if b == a then Text(v) else Hole(b);
    SubstituteOneAt(t, a, v);
    assert SubstituteOne(t, a, v) == [Text(v), Text(rest), last];
    SubstituteAt(t, values);
    assert Substitute(t, values) == [Text(v), Text(rest), Text(u)];
    FlatOfThree(v, rest, last, open);
    FlatOfThree(v, rest, Text(u), open);
    var tail := Show(last, open);
    WellFormedIsReady(t, open, a);
    ReplaceAllSubstitutesOne(t, open, a, v);
    hide Flat, Substitute, SubstituteOne, ReplaceAll, ReplaceEach;
    EachOfTwo(Flat(t, open), a, b, open, values);
    TailIsClean(b, open);
    CleanOfMarker(target[1..], open, b, false);
    SecondPassChanges(x, target, u, tail, k);
  }

  lemma EachOfTwo(s: string, a: string, b: string, open: string, values: Values)
    requires open != ""
    ensures ReplaceEach(s, [a, b], open, values)
         == ReplaceAll(ReplaceAll(s, Marker(open, a), values(a)), Marker(open, b), values(b))
  {
    hide ReplaceAll;
    assert [a, b][1..] == [b] && [b][1..] == [];
    var s1 := ReplaceAll(s, Marker(open, a), values(a));
    assert ReplaceEach(s, [a, b], open, values) == ReplaceEach(s1, [b], open, values);
    assert ReplaceEach(ReplaceAll(s1, Marker(open, b), values(b)), [], open, values) == ReplaceAll(s1, Marker(open, b), values(b));
  }

  lemma SecondPassChanges(x: string, target: string, u: string, tail: string, k: nat)
    requires target != "" && u != target && Clean(target[1..], target, false)
    requires k <= |x| && target <= x[k..] && (tail == u || tail == target)
    ensures ReplaceAll(x + tail, target, u) != x + u
  {
    hide Clean, ReplaceAll;
    if tail == u {
      assert (x + u)[k..] == x[k..] + u;
      PrefixOfConcat(target, x[k..], u);
      ReplaceChanges(x + u, target, u, k);
    } else {
      ReplaceAtEnd(x, target, u);
      ReplaceChanges(x, target, u, k);
      var r := ReplaceAll(x, target, u);
      assert (r + u)[..|r|] == r && (x + u)[..|x|] == x;
    }
  }

  // The exact condition on the values: the loop is the simultaneous substitution of every
  // well-formed template, if and only if no value can make a placeholder that is replaced.
  lemma SimultaneousExactlyWhenHarmless(open: string, values: Values)
    requires IsOpen(open)
    ensures (forall a, b :: IsName(a) && IsName(b) ==> Harmless(a, b, open, values))
       <==> forall t :: WellFormed(t, open) ==> LoopIsSimultaneous(t, open, values)
  {
    hide LoopIsSimultaneous, Harmless, WellFormed, IsName, IsOpen;
    if forall a, b :: IsName(a) && IsName(b) ==> Harmless(a, b, open, values) {
      forall t | WellFormed(t, open) ensures LoopIsSimultaneous(t, open, values) {
        NamesCover(t, open);
        HarmlessLoopIsSimultaneous(t, open, values);
      }
    } else {
      var a, b :| IsName(a) && IsName(b) && !Harmless(a, b, open, values);
      var t := HarmShows(a, b, open, values);
    }
  }

  // The values that are harmless whatever the other values are.
  ghost predicate HarmlessValue(v: string, open: string) {
    forall b :: IsName(b) ==> Clean(v, Marker(open, b), false)
  }

  // The same for one value: it never does harm if and only if no placeholder of any name
  // starts in it, to its end or beyond. The other values are any that do no harm themselves.
  lemma ValueExactlyWhenHarmless(open: string, a: string, v: string)
    requires IsOpen(open) && IsName(a) && v != Marker(open, a)
    ensures HarmlessValue(v, open) <==>
      forall t, values: Values ::
        WellFormed(t, open) && values(a) == v && (forall b :: IsName(b) && b != a ==> HarmlessValue(values(b), open)) ==>
          LoopIsSimultaneous(t, open, values)
  {
    hide LoopIsSimultaneous, WellFormed, IsName, IsOpen, Clean;
    if HarmlessValue(v, open) {
      forall t, values: Values | WellFormed(t, open) && values(a) == v
                                 && (forall b :: IsName(b) && b != a ==> HarmlessValue(values(b), open))
        ensures LoopIsSimultaneous(t, open, values)
      {
        assert forall b :: IsName(b) ==> HarmlessValue(values(b), open);
        NamesCover(t, open);
        HarmlessLoopIsSimultaneous(t, open, values);
      }
    } else {
      var values: Values := (name: string) => if name == a then v else "";
      var b :| IsName(b) && !Clean(v, Marker(open, b), false);
      assert values(b) != Marker(open, b);
      var t := HarmShows(a, b, open, values);
      EmptyIsHarmless(open);
    }
  }

  lemma EmptyIsHarmless(open: string)
    ensures HarmlessValue("", open)
  {
  }

  // --- The stages ---

  // No marker starts in the value, whatever follows it. Braces alone do no harm.
  predicate NoMarker(value: string, open: string) { Clean(value, open, false) }

  // No placeholder is left in the result.
  lemma NothingLeft(t: Template, open: string, values: Values)
    requires IsOpen(open) && WellFormed(t, open)
    requires forall name :: name in Names(t) ==> NoMarker(values(name), open)
    ensures FindAll(Flat(Substitute(t, values), open), open) == []
  {
    SubstitutedIsText(t, open, values);
    FindAllFindsNames(Substitute(t, values), open);
  }

  lemma {:induction false} SubstitutedIsText(t: Template, open: string, values: Values)
    requires IsOpen(open) && WellFormed(t, open)
    requires forall name :: name in Names(t) ==> NoMarker(values(name), open)
    ensures WellFormed(Substitute(t, values), open) && Names(Substitute(t, values)) == []
    ensures |Substitute(t, values)| == |t|
  {
    if t == [] {
    } else {
      SubstitutedIsText(t[1..], open, values);
      var t' := Substitute(t, values);
      assert t'[1..] == Substitute(t[1..], values);
      if t[0].Hole? {
        assert t[0].name in Names(t);
        CleanFinal(values(t[0].name), open);
      }
    }
  }

  // What the loops compute is the simultaneous substitution, and it leaves no placeholder.
  lemma LoopSubstitutes(t: Template, open: string, values: Values)
    requires IsOpen(open) && WellFormed(t, open)
    requires forall name :: name in Names(t) ==> NoMarker(values(name), open)
    ensures var text := Flat(t, open);
      var result := ReplaceEach(text, FindAll(text, open), open, values);
      result == Flat(Substitute(t, values), open) && FindAll(result, open) == []
  {
    hide FindAll, ReplaceEach, Clean, WellFormed;
    forall i, j | 0 <= i < |Names(t)| && 0 <= j < |Names(t)| ensures Harmless(Names(t)[i], Names(t)[j], open, values) {
      assert Names(t)[i] in Names(t);
      CleanOfMarker(values(Names(t)[i]), open, Names(t)[j], false);
    }
    HarmlessLoopIsSimultaneous(t, open, values);
    NothingLeft(t, open, values);
  }

  // ReplaceEnvs is the simultaneous substitution of the trimmed text.
  lemma EnvsAreSubstituted(content: string, t: Template, env: map<string, string>)
    requires TrimSpace(content) == Flat(t, ENV_OPEN) && WellFormed(t, ENV_OPEN)
    requires forall name :: name in Names(t) && name in env ==> NoMarker(env[name], ENV_OPEN)
    ensures var text := TrimSpace(content);
      var result := ReplaceEach(text, FindAll(text, ENV_OPEN), ENV_OPEN, EnvValues(env));
      result == Flat(Substitute(t, EnvValues(env)), ENV_OPEN) && FindAll(result, ENV_OPEN) == []
  {
    LoopSubstitutes(t, ENV_OPEN, EnvValues(env));
  }

  // What the environment puts in: the value of a set name, and nothing for an unset one.
  lemma UnsetNamesVanish(t: Template, env: map<string, string>)
    ensures var t' := Substitute(t, EnvValues(env));
      |t'| == |t| && forall i :: 0 <= i < |t| ==>
        t'[i] == match t[i] case Text(x) => Text(x) case Hole(name) => Text(if name in env then env[name] else "")
  {
    SubstituteAt(t, EnvValues(env));
  }

  // A value that itself looks like a placeholder is replaced again: here the two differ.
  lemma BracedValueIsReplacedAgain(env: map<string, string>)
    requires env == map["A" := "{{$B}}", "B" := "x"]
    ensures var t := [Hole("A"), Hole("B")];
      && ReplaceEach(Flat(t, ENV_OPEN), Names(t), ENV_OPEN, EnvValues(env)) == "xx"
      && Flat(Substitute(t, EnvValues(env)), ENV_OPEN) == "{{$B}}x"
  {
    var t := [Hole("A"), Hole("B")];
    var t1 := [Text("{{$B}}"), Hole("B")];
    var t2 := [Hole("B"), Hole("B")];
    var t3 := [Text("x"), Text("x")];
    var values := EnvValues(env);
    assert t[1..] == [Hole("B")] && t1[1..] == [Hole("B")] && t2[1..] == [Hole("B")] && t3[1..] == [Text("x")];
    assert Names(t) == ["A", "B"] && ["A", "B"][1..] == ["B"];
    assert ENV_OPEN + "B" + CLOSE == "{{$B}}";
    assert WellFormed(t, ENV_OPEN) && WellFormed(t2, ENV_OPEN);
    WellFormedIsReady(t, ENV_OPEN, "A");
    WellFormedIsReady(t2, ENV_OPEN, "B");
    assert SubstituteOne(t, "A", values("A")) == t1 && SubstituteOne(t2, "B", values("B")) == t3;
    assert Flat(t1, ENV_OPEN) == Flat(t2, ENV_OPEN);
    assert Flat(t3, ENV_OPEN) == "xx";
    assert Flat(Substitute(t, values), ENV_OPEN) == "{{$B}}x";
    hide ReplaceAll, Flat, WellFormed, Ready, SubstituteOne, Substitute;
    ReplaceAllSubstitutesOne(t, ENV_OPEN, "A", values("A"));
    ReplaceAllSubstitutesOne(t2, ENV_OPEN, "B", values("B"));
    assert ReplaceEach(Flat(t, ENV_OPEN), ["A", "B"], ENV_OPEN, values) == ReplaceEach(Flat(t2, ENV_OPEN), ["B"], ENV_OPEN, values);
  }

  // --- Fields of the configuration ---

  // What reflection sees: exported strings, unexported ones, sections, and everything else.
  datatype Field = Str(text: string) | HiddenStr | Other | Section(fields: map<string, Field>)

  datatype Lookup = Found(text: string) | Missing | LookupPanics

  // Follow the names to the first string. A missing field is an error, as is running out
  // of names; asking a field that is no section for a field, or an unexported string for
  // its value, panics.
  function Walk(f: Field, path: seq<string>): Lookup {
    if path == [] then Missing
    else if !f.Section? then LookupPanics
    else if path[0] !in f.fields then Missing
    else
      match f.fields[path[0]]
      case Str(text) => Found(text)
      case HiddenStr => LookupPanics
      case next => Walk(next, path[1..])
  }

  function FieldValue(cfg: Field, path: string): Lookup {
    Walk(cfg, Split(path, ':'))
  }

  method GetFieldValue(cfg: Field, path: string) returns (r: Lookup)
    ensures r == FieldValue(cfg, path)
  {
    var fields := Split(path, ':');
    var current := cfg;
    for i := 0 to |fields|
      invariant Walk(current, fields[i..]) == FieldValue(cfg, path)
    {
      assert fields[i..][1..] == fields[i + 1..];
      if !current.Section? { return LookupPanics; }
      if fields[i] !in current.fields { return Missing; }
      current := current.fields[fields[i]];
      if current.Str? { return Found(current.text); }
      if current.HiddenStr? { return LookupPanics; }
    }
    r := Missing;
  }

  // The field that the names lead to through the sections, if they do.
  function Follow(f: Field, path: seq<string>): Option<Field> {
    if path == [] then Some(f)
    else if f.Section? && path[0] in f.fields then Follow(f.fields[path[0]], path[1..])
    else None
  }

  // A path gives a text exactly when some names at its front lead to that string. It panics
  // exactly when some lead to an unexported string, or some, but not all, to a field that is
  // neither string nor section. Otherwise it is an error.
  lemma {:induction false} WalkExactly(f: Field, path: seq<string>)
    requires f.Section?
    ensures forall text :: Walk(f, path) == Found(text) <==>
      exists k :: 0 < k <= |path| && Follow(f, path[..k]) == Some(Str(text))
    ensures Walk(f, path) == LookupPanics <==>
      exists k :: 0 < k <= |path| && (Follow(f, path[..k]) == Some(HiddenStr) || (k < |path| && Follow(f, path[..k]) == Some(Other)))
  {
    if path == [] {
    } else if path[0] !in f.fields {
      forall k | 0 < k <= |path| ensures Follow(f, path[..k]) == None {
        assert path[..k][0] == path[0];
      }
    } else {
      var next, rest := f.fields[path[0]], path[1..];
      forall k | 0 < k <= |path| ensures Follow(f, path[..k]) == Follow(next, rest[..k - 1]) {
        assert path[..k][0] == path[0] && path[..k][1..] == rest[..k - 1];
      }
      assert Follow(f, path[..1]) == Some(next);
      if next.Section? {
        WalkExactly(next, rest);
        forall k | 0 < k <= |rest| ensures Follow(next, rest[..k]) == Follow(f, path[..k + 1]) {}
        assert forall g :: (exists k :: 0 < k <= |rest| && Follow(next, rest[..k]) == Some(g)) <==>
                           (exists k :: 1 < k <= |path| && Follow(f, path[..k]) == Some(g));
      } else {
        forall k | 1 < k <= |path| ensures Follow(f, path[..k]) == None {
          assert rest[..k - 1] != [];
        }
      }
    }
  }

  // Names are separated by colons, as in {{ThisConfig:GIT:GIT_BRANCH}}.
  lemma ColonsSeparateNames(cfg: Field, names: seq<string>)
    requires names != [] && forall i :: 0 <= i < |names| ==> ':' !in names[i]
    ensures FieldValue(cfg, Join(names, ':')) == Walk(cfg, names)
    ensures |names| == 2 ==> Join(names, ':') == names[0] + ":" + names[1]
    ensures Marker(CONFIG_OPEN, "GIT:GIT_BRANCH") == "{{ThisConfig:GIT:GIT_BRANCH}}"
  {
    SplitJoin(names, ':');
    if |names| == 2 {
      assert names[1..] == [names[1]];
    }
  }

  // Names after the first string on the way are ignored.
  lemma {:induction false} FoundIgnoresTheRest(f: Field, path: seq<string>, more: seq<string>)
    requires Walk(f, path).Found?
    ensures Walk(f, path + more) == Walk(f, path)
  {
    assert (path + more)[0] == path[0];
    if f.fields[path[0]].Str? {
    } else {
      assert (path + more)[1..] == path[1..] + more;
      FoundIgnoresTheRest(f.fields[path[0]], path[1..], more);
    }
  }

  function FieldValues(cfg: Field): Values {
    (path: string) => match FieldValue(cfg, path) case Found(text) => text case _ => ""
  }

  datatype Replaced = Replaced(isChanged: bool, content: string) | ReplaceFailed | ReplacePanicked

  // The first path that does not lead to a string stops the loop.
  ghost predicate StoppedBy(cfg: Field, paths: seq<string>, why: Lookup) {
    exists i :: 0 <= i < |paths| && FieldValue(cfg, paths[i]) == why
             && forall j :: 0 <= j < i ==> FieldValue(cfg, paths[j]).Found?
  }

  // The text is replaced exactly when every path leads to a string, and then it is reported
  // changed exactly when there is a placeholder; otherwise the first bad path decides.
  method ReplaceConfigFields(cfg: Field, content: string) returns (r: Replaced)
    ensures var text := TrimSpace(content);
      var paths := FindAll(text, CONFIG_OPEN);
      match r
      case Replaced(isChanged, result) =>
        && (forall i :: 0 <= i < |paths| ==> FieldValue(cfg, paths[i]).Found?)
        && (isChanged <==> paths != [])
        && result == ReplaceEach(text, paths, CONFIG_OPEN, FieldValues(cfg))
      case ReplaceFailed => StoppedBy(cfg, paths, Missing)
      case ReplacePanicked => StoppedBy(cfg, paths, LookupPanics)
  {
    var contentString := TrimSpace(content);
    var isChanged := false;
    var matches := FindAll(contentString, CONFIG_OPEN);
    ghost var goal := ReplaceEach(contentString, matches, CONFIG_OPEN, FieldValues(cfg));
    for i := 0 to |matches|
      invariant isChanged <==> i > 0
      invariant forall j :: 0 <= j < i ==> FieldValue(cfg, matches[j]).Found?
      invariant ReplaceEach(contentString, matches[i..], CONFIG_OPEN, FieldValues(cfg)) == goal
    {
      assert matches[i..][1..] == matches[i + 1..];
      var replacedText := CONFIG_OPEN + matches[i] + CLOSE;
      var replacingText := GetFieldValue(cfg, matches[i]);
      if replacingText.Missing? { return ReplaceFailed; }
      if replacingText.LookupPanics? { return ReplacePanicked; }
      contentString := ReplaceAll(contentString, replacedText, replacingText.text);
      isChanged := true;
    }
    r := Replaced(isChanged, contentString);
  }

  // Where all paths lead to brace-free strings, the replaced text is the simultaneous
  // substitution of the fields, and no placeholder is left.
  lemma FieldsAreSubstituted(cfg: Field, content: string, t: Template)
    requires TrimSpace(content) == Flat(t, CONFIG_OPEN) && WellFormed(t, CONFIG_OPEN)
    requires forall path :: path in Names(t) ==> FieldValue(cfg, path).Found? && NoMarker(FieldValue(cfg, path).text, CONFIG_OPEN)
    ensures var text := TrimSpace(content);
      var result := ReplaceEach(text, FindAll(text, CONFIG_OPEN), CONFIG_OPEN, FieldValues(cfg));
      result == Flat(Substitute(t, FieldValues(cfg)), CONFIG_OPEN) && FindAll(result, CONFIG_OPEN) == []
  {
    LoopSubstitutes(t, CONFIG_OPEN, FieldValues(cfg));
  }

  // --- Both stages ---

  // What getOneConfig parses in the end: the environment's values are put in first, and the
  // configuration parsed from that text gives the values of the second stage, if it has them.
  // Without a placeholder for that stage the text is taken as it is, not trimmed.
  function ConfigText(content: string, env: map<string, string>, parse: string -> Field): string {
    var text := TrimSpace(content);
    var first := ReplaceEach(text, FindAll(text, ENV_OPEN), ENV_OPEN, EnvValues(env));
    var trimmed := TrimSpace(first);
    var paths := FindAll(trimmed, CONFIG_OPEN);
    if paths == [] then first else ReplaceEach(trimmed, paths, CONFIG_OPEN, FieldValues(parse(first)))
  }

  // If the environment's values hold no marker and leave a well-formed text for the second
  // stage, the two loops are one simultaneous substitution after another.
  lemma StagesAreSubstitutions(content: string, t: Template, env: map<string, string>, parse: string -> Field, t': Template)
    requires TrimSpace(content) == Flat(t, ENV_OPEN) && WellFormed(t, ENV_OPEN)
    requires forall name :: name in Names(t) && name in env ==> NoMarker(env[name], ENV_OPEN)
    requires var first := Flat(Substitute(t, EnvValues(env)), ENV_OPEN);
      && TrimSpace(first) == Flat(t', CONFIG_OPEN) && WellFormed(t', CONFIG_OPEN)
      && forall path :: path in Names(t') ==>
           FieldValue(parse(first), path).Found? && NoMarker(FieldValue(parse(first), path).text, CONFIG_OPEN)
    ensures var first := Flat(Substitute(t, EnvValues(env)), ENV_OPEN);
      var result := ConfigText(content, env, parse);
      if Names(t') == [] then result == first
      else result == Flat(Substitute(t', FieldValues(parse(first))), CONFIG_OPEN) && FindAll(result, CONFIG_OPEN) == []
  {
    hide FindAll, ReplaceEach, WellFormed, Flat, Substitute, Names, TrimSpace, FieldValue, NoMarker;
    EnvsAreSubstituted(content, t, env);
    var first := Flat(Substitute(t, EnvValues(env)), ENV_OPEN);
    FieldsAreSubstituted(parse(first), first, t');
    FindAllFindsNames(t', CONFIG_OPEN);
  }
}
