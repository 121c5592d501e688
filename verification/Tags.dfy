/** Version tags: conversion to a number, comparison, and the choice of the maximum. */
module Tags {
  import opened GoStrings

  // A conversion returns a number, returns an error, or panics by indexing past
  // the parts that the split produced.
  datatype Conversion = Value(n: int) | Failed | Panicked

  function ConvertTagToNumeric(tag: string, prefix: string): Conversion {
    var parts := Split(TrimPrefix(tag, prefix), '.');
    match Atoi(parts[0])
    case None => Failed
    case Some(major) =>
      if |parts| < 2 then Panicked else
      match Atoi(parts[1])
      case None => Failed
      case Some(minor) =>
        if |parts| < 3 then Panicked else
        match Atoi(parts[2])
        case None => Failed
        case Some(patch) => Value(WrapInt64(major * 10000 + minor * 100 + patch))
  }

  // A tag written out of its parts.
  function Render(prefix: string, major: int, minor: int, patch: int): string {
    prefix + Join([Itoa(major), Itoa(minor), Itoa(patch)], '.')
  }

  // Conversion reads back what Render wrote, for every prefix and every int64 part.
  lemma RenderConvert(prefix: string, major: int, minor: int, patch: int)
    requires FitsInt64(major) && FitsInt64(minor) && FitsInt64(patch)
    ensures ConvertTagToNumeric(Render(prefix, major, minor, patch), prefix)
         == Value(WrapInt64(major * 10000 + minor * 100 + patch))
  {
    hide ConvertTagToNumeric, Join, Itoa, Atoi, WrapInt64, FitsInt64;
    AtoiItoa(major); AtoiItoa(minor); AtoiItoa(patch);
    ConversionReadsParts(Render(prefix, major, minor, patch), prefix, [Itoa(major), Itoa(minor), Itoa(patch)]);
  }

  // Conversion, for every text: without the prefix, if the tag carries it, the first three
  // parts between dots decide. It is an error if one of them is no number; else a panic if
  // there are fewer than three; else their mixed-radix number. Later parts do not matter.
  lemma ConversionReadsParts(tag: string, prefix: string, parts: seq<string>)
    requires parts != [] && forall i :: 0 <= i < |parts| ==> '.' !in parts[i]
    requires tag == (if prefix <= tag then prefix else "") + Join(parts, '.')
    ensures ConvertTagToNumeric(tag, prefix) == Reading(parts)
  {
    hide ConvertTagToNumeric, Split, Join, Reading;
    SplitJoin(parts, '.');
    var rest := Join(parts, '.');
    if prefix <= tag {
      assert (prefix + rest)[|prefix|..] == rest;
    } else {
      assert "" + rest == rest;
    }
    assert TrimPrefix(tag, prefix) == rest;
    SplitDecides(tag, prefix);
  }

  ghost function Reading(parts: seq<string>): Conversion {
    if exists i :: 0 <= i < |parts| && i < 3 && Atoi(parts[i]) == None then Failed
    else if |parts| < 3 then Panicked
    else Value(WrapInt64(Atoi(parts[0]).value * 10000 + Atoi(parts[1]).value * 100 + Atoi(parts[2]).value))
  }

  lemma SplitDecides(tag: string, prefix: string)
    ensures ConvertTagToNumeric(tag, prefix) == Reading(Split(TrimPrefix(tag, prefix), '.'))
  {
    hide Split, TrimPrefix, Atoi, WrapInt64;
  }

  // A tag that does not carry the prefix is converted as it is.
  lemma TagWithoutPrefix(tag: string, prefix: string)
    requires !(prefix <= tag)
    ensures ConvertTagToNumeric(tag, prefix) == ConvertTagToNumeric(tag, "")
  {
    hide Split, Atoi, WrapInt64;
    assert tag[0..] == tag;
  }

  // So the bare version, which a cluster may serve under a one-letter prefix, converts too.
  lemma BareVersionConverts(prefix: string, major: int, minor: int, patch: int)
    requires FitsInt64(major) && FitsInt64(minor) && FitsInt64(patch)
    requires !(prefix <= Render("", major, minor, patch))
    ensures ConvertTagToNumeric(Render("", major, minor, patch), prefix)
         == Value(WrapInt64(major * 10000 + minor * 100 + patch))
  {
    hide ConvertTagToNumeric, Render;
    TagWithoutPrefix(Render("", major, minor, patch), prefix);
    RenderConvert("", major, minor, patch);
  }

  /** A plain version: the range in which the mixed-radix encoding loses nothing. */
  datatype Version = Version(major: int, minor: int, patch: int) {
    predicate Plain() {
      0 <= major && 0 <= minor < 100 && 0 <= patch < 100 && Number() <= MAX_INT64
    }

    function Number(): int { major * 10000 + minor * 100 + patch }

    function Tag(prefix: string): string { Render(prefix, major, minor, patch) }

    // Precedence of plain versions, item 11 of Semantic Versioning 2.0.0.
    predicate Precedes(that: Version) {
      || major < that.major
      || (major == that.major && minor < that.minor)
      || (major == that.major && minor == that.minor && patch < that.patch)
    }
  }

  // Div and mod decode the number of a plain version.
  lemma NumberDecodes(v: Version)
    requires v.Plain()
    ensures v == Version(v.Number() / 10000, v.Number() / 100 % 100, v.Number() % 100)
  {
    var n := v.Number();
    assert n == 100 * (v.major * 100 + v.minor) + v.patch;
    assert n / 100 == v.major * 100 + v.minor;
  }

  // The text of a plain version converts to its number.
  lemma PlainTagConverts(prefix: string, v: Version)
    requires v.Plain()
    ensures ConvertTagToNumeric(v.Tag(prefix), prefix) == Value(v.Number())
  {
    RenderConvert(prefix, v.major, v.minor, v.patch);
  }

  // Comparing the texts of plain versions under any prefix is comparing the versions.
  lemma ComparisonOrdersPlainTags(prefix: string, v: Version, w: Version)
    requires v.Plain() && w.Plain()
    ensures CompareTwoTags(v.Tag(prefix), w.Tag(prefix), prefix)
         == Compared(if v.Precedes(w) then 1 else if w.Precedes(v) then -1 else 0)
  {
    PlainTagConverts(prefix, v);
    PlainTagConverts(prefix, w);
    NumbersDecide(v.Tag(prefix), w.Tag(prefix), prefix);
  }

  // Outside the plain range neighbouring versions collide.
  lemma EncodingCollides(prefix: string)
    ensures ConvertTagToNumeric(Render(prefix, 1, 0, 100), prefix)
         == ConvertTagToNumeric(Render(prefix, 1, 1, 0), prefix) == Value(10100)
  {
    RenderConvert(prefix, 1, 0, 100);
    RenderConvert(prefix, 1, 1, 0);
  }

  // Minor and patch at most k, and a number that fits.
  predicate UpTo(v: Version, k: nat) {
    0 <= v.major && 0 <= v.minor <= k && 0 <= v.patch <= k && v.Number() <= MAX_INT64
  }

  // 99 is the exact bound: comparison is precedence on all versions whose minor and patch are
  // at most k, under any prefix, if and only if k is at most 99.
  lemma ComparisonExactUpTo99(prefix: string, k: nat)
    ensures k <= 99 <==>
      forall v: Version, w: Version :: UpTo(v, k) && UpTo(w, k) ==>
        CompareTwoTags(v.Tag(prefix), w.Tag(prefix), prefix)
          == Compared(if v.Precedes(w) then 1 else if w.Precedes(v) then -1 else 0)
  {
    hide CompareTwoTags, Render;
    if k <= 99 {
      forall v: Version, w: Version | UpTo(v, k) && UpTo(w, k)
        ensures CompareTwoTags(v.Tag(prefix), w.Tag(prefix), prefix)
             == Compared(if v.Precedes(w) then 1 else if w.Precedes(v) then -1 else 0)
      {
        ComparisonOrdersPlainTags(prefix, v, w);
      }
    } else {
      var v, w := Version(1, 0, 100), Version(1, 1, 0);
      EncodingCollides(prefix);
      NumbersDecide(v.Tag(prefix), w.Tag(prefix), prefix);
      assert UpTo(v, k) && UpTo(w, k) && v.Precedes(w);
      assert CompareTwoTags(v.Tag(prefix), w.Tag(prefix), prefix) == Compared(0);
    }
  }

  // CompareTwoTags: 1 when the first tag is lower, -1 when it is higher, with
  // -2 and -3 naming the tag that did not convert.
  datatype Comparison = Compared(order: int) | Erred(code: int) | ComparePanicked {
    // The integer result, with the error ignored, as every caller reads it.
    predicate Is(code': int) {
      match this
      case Compared(o) => o == code'
      case Erred(c) => c == code'
      case ComparePanicked => false
    }
  }

  function CompareTwoTags(tag1: string, tag2: string, prefix: string): Comparison {
    match ConvertTagToNumeric(tag1, prefix)
    case Panicked => ComparePanicked
    case Failed => Erred(-2)
    case Value(n1) =>
      match ConvertTagToNumeric(tag2, prefix)
      case Panicked => ComparePanicked
      case Failed => Erred(-3)
      case Value(n2) =>
        if n1 == n2 then Compared(0) else if n1 > n2 then Compared(-1) else Compared(1)
  }

  // On tags that convert, comparison is a total preorder with its mirror image;
  // it fails to compare exactly when some tag fails to convert.
  lemma ComparisonIsTotalPreorder(a: string, b: string, c: string, prefix: string)
    ensures CompareTwoTags(a, b, prefix).Compared?
       <==> ConvertTagToNumeric(a, prefix).Value? && ConvertTagToNumeric(b, prefix).Value?
    ensures CompareTwoTags(a, b, prefix).Compared? && CompareTwoTags(b, c, prefix).Compared? ==>
      var ab, bc, ac, ba := CompareTwoTags(a, b, prefix).order, CompareTwoTags(b, c, prefix).order,
        CompareTwoTags(a, c, prefix), CompareTwoTags(b, a, prefix);
      && ba == Compared(-ab)
      && (ab == bc ==> ac == Compared(ab))
      && (ab == 0 ==> ac == Compared(bc))
      && (bc == 0 ==> ac == Compared(ab))
  {
    var x := ConvertTagToNumeric(a, prefix);
    var y := ConvertTagToNumeric(b, prefix);
    var z := ConvertTagToNumeric(c, prefix);
    NumbersDecide(a, b, prefix); NumbersDecide(b, c, prefix);
    NumbersDecide(a, c, prefix); NumbersDecide(b, a, prefix);
  }

  lemma NumbersDecide(a: string, b: string, prefix: string)
    ensures var x, y, r := ConvertTagToNumeric(a, prefix), ConvertTagToNumeric(b, prefix), CompareTwoTags(a, b, prefix);
      && (r.Compared? <==> x.Value? && y.Value?)
      && (r.Compared? ==> r.order == if x.n < y.n then 1 else if x.n > y.n then -1 else 0)
  {
  }

  // Otherwise the code names the tag that is in the way, the first one first.
  lemma ComparisonErrors(a: string, b: string, prefix: string)
    ensures var x, y, r := ConvertTagToNumeric(a, prefix), ConvertTagToNumeric(b, prefix), CompareTwoTags(a, b, prefix);
      && (r == Erred(-2) <==> x.Failed?)
      && (r == Erred(-3) <==> x.Value? && y.Failed?)
      && (r == ComparePanicked <==> x.Panicked? || (x.Value? && y.Panicked?))
  {
    hide ConvertTagToNumeric;
  }

  // The downgrade tag converts to zero whatever the prefix is.
  lemma ZeroTag(prefix: string)
    ensures ConvertTagToNumeric(prefix + "0.0.0", prefix) == Value(0)
  {
    assert Itoa(0) == "0";
    assert Join(["0"], '.') == "0";
    assert Join(["0", "0"], '.') == "0.0";
    assert Join(["0", "0", "0"], '.') == "0.0.0";
    RenderConvert(prefix, 0, 0, 0);
  }

  const BASELINE_TAG := "v1.0.0"
  const FALLBACK_TAG := "v0.0.0"
  const DEFAULT_CEILING := "v99.99.99"

  // A failed conversion leaves its number at zero.
  function NumberOrZero(c: Conversion): int
    requires !c.Panicked?
  {
    if c.Value? then c.n else 0
  }

  // The tags "v0.0.0" to "v9.0.0", the only ones that the program knows by itself.
  function VTag(d: nat): string
    requires d < 10
  {
    "v" + [Digit(d)] + ".0.0"
  }

  lemma VTagUnderV(d: nat)
    requires d < 10
    ensures ConvertTagToNumeric(VTag(d), "v") == Value(d * 10000)
  {
    hide ConvertTagToNumeric;
    assert Itoa(d) == [Digit(d)] && Itoa(0) == "0";
    assert Join(["0"], '.') == "0";
    assert Join(["0", "0"], '.') == "0.0";
    assert Join([[Digit(d)], "0", "0"], '.') == [Digit(d)] + ['.'] + "0.0";
    assert Render("v", d, 0, 0) == VTag(d);
    RenderConvert("v", d, 0, 0);
  }

  // What the other prefixes of such a tag leave of it.
  lemma VTagRemainders(d: nat)
    requires d < 10
    ensures Split(VTag(d), '.')[0] == "v" + [Digit(d)]
    ensures Split(".0.0", '.')[0] == "" && Split(".0", '.')[0] == "" && Split("", '.')[0] == ""
    ensures Split("0.0", '.') == ["0", "0"] && Split("0", '.') == ["0"]
    ensures Atoi("v" + [Digit(d)]) == None && Atoi("") == None && Atoi("0") == Some(0)
  {
    SplitWhole("0", '.');
    SplitFirst("0", "0", '.');
    assert "0" + ['.'] + "0" == "0.0";
    SplitFirst("v" + [Digit(d)], "0.0", '.');
    assert "v" + [Digit(d)] + ['.'] + "0.0" == VTag(d);
  }

  // Such a tag is one of the prefix "v" only; the two prefixes that leave fewer than three
  // numeric parts of it make the conversion panic.
  lemma VTagByPrefix(d: nat, prefix: string)
    requires d < 10
    ensures ConvertTagToNumeric(VTag(d), prefix)
         == if prefix == "v" then Value(d * 10000)
            else if prefix == "v" + [Digit(d)] + "." || prefix == "v" + [Digit(d)] + ".0." then Panicked
            else Failed
  {
    hide Split, Atoi, WrapInt64;
    VTagUnderV(d);
    VTagRemainders(d);
    var tag := VTag(d);
    if prefix <= tag {
      assert prefix == tag[..|prefix|];
      var rest := tag[|prefix|..];
      if |prefix| == 0 {
        assert rest == tag;
      } else if |prefix| == 1 {
        assert prefix == "v";
      } else if |prefix| == 2 {
        assert rest == ".0.0";
      } else if |prefix| == 3 {
        assert rest == "0.0";
      } else if |prefix| == 4 {
        assert rest == ".0";
      } else if |prefix| == 5 {
        assert rest == "0";
      } else {
        assert rest == "";
      }
    }
  }

  // The literal that GetMaxTag starts from.
  lemma BaselineByPrefix(prefix: string)
    ensures ConvertTagToNumeric(BASELINE_TAG, prefix)
         == if prefix == "v" then Value(10000)
            else if prefix == "v1." || prefix == "v1.0." then Panicked
            else Failed
  {
    hide ConvertTagToNumeric;
    VTagByPrefix(1, prefix);
    assert VTag(1) == BASELINE_TAG;
  }

  // The tag that GetImageTag falls back to.
  lemma FallbackByPrefix(prefix: string)
    ensures ConvertTagToNumeric(FALLBACK_TAG, prefix)
         == if prefix == "v" then Value(0)
            else if prefix == "v0." || prefix == "v0.0." then Panicked
            else Failed
  {
    hide ConvertTagToNumeric;
    VTagByPrefix(0, prefix);
    assert VTag(0) == FALLBACK_TAG;
  }

  lemma EmptyTagFails(prefix: string)
    ensures ConvertTagToNumeric("", prefix) == Failed
  {
    assert Split("", '.')[0] == "" && Atoi("") == None;
  }

  // What GetMaxTag yields: a number and a tag, an error, or a panic.
  datatype Choice = Chosen(n: int, tag: string) | BadTag | ChoicePanicked

  // The conversion under a fixed prefix.
  type Numbering = string -> Conversion

  function NumberingOf(prefix: string): Numbering {
    (tag: string) => ConvertTagToNumeric(tag, prefix)
  }

  // An empty ceiling stands for the default one.
  function CeilingTag(maxTag: string): string {
    if maxTag == "" then DEFAULT_CEILING else maxTag
  }

  // One pass over the tags: keep the best number above the baseline and not above the ceiling.
  function BestOf(tags: seq<string>, ceiling: int, baseline: int, number: Numbering): Choice {
    if tags == [] then Chosen(baseline, BASELINE_TAG)
    else
      var best := BestOf(tags[..|tags| - 1], ceiling, baseline, number);
      var last := tags[|tags| - 1];
      if !best.Chosen? then best
      else
        match number(last)
        case Failed => BadTag
        case Panicked => ChoicePanicked
        case Value(n) => if best.n < n <= ceiling then Chosen(n, last) else best
  }

  function MaxTag(tags: seq<string>, maxTag: string, prefix: string): Choice {
    var baseline := ConvertTagToNumeric(BASELINE_TAG, prefix);
    var ceiling := ConvertTagToNumeric(CeilingTag(maxTag), prefix);
    if baseline.Panicked? || ceiling.Panicked? then ChoicePanicked
    else BestOf(tags, NumberOrZero(ceiling), NumberOrZero(baseline), NumberingOf(prefix))
  }

  method GetMaxTag(tags: seq<string>, maxTag: string, prefix: string) returns (r: Choice)
    ensures r == MaxTag(tags, maxTag, prefix)
    ensures var baseline, ceiling := ConvertTagToNumeric(BASELINE_TAG, prefix), ConvertTagToNumeric(CeilingTag(maxTag), prefix);
      if baseline.Panicked? || ceiling.Panicked? then r == ChoicePanicked
      else IsArgmax(tags, NumberOrZero(ceiling), NumberOrZero(baseline), NumberingOf(prefix), r)
  {
    hide ConvertTagToNumeric;
    var tagString := BASELINE_TAG;
    var maxTagValue := maxTag;
    if maxTagValue == "" { maxTagValue := DEFAULT_CEILING; }
    var baseline := ConvertTagToNumeric(tagString, prefix);
    var ceiling := ConvertTagToNumeric(maxTagValue, prefix);
    if baseline.Panicked? || ceiling.Panicked? {
      return ChoicePanicked;
    }
    var nMaxTag := NumberOrZero(baseline);
    var nMaxTagValue := NumberOrZero(ceiling);
    ghost var start, number := nMaxTag, NumberingOf(prefix);
    BestOfIsArgmax(tags, nMaxTagValue, start, number);
    for i := 0 to |tags|
      invariant BestOf(tags[..i], nMaxTagValue, start, number) == Chosen(nMaxTag, tagString)
    {
      assert tags[..i + 1][..i] == tags[..i];
      var current := ConvertTagToNumeric(tags[i], prefix);
      if !current.Value? {
        BadPrefixDecides(tags, i + 1, nMaxTagValue, start, number);
        return if current.Failed? then BadTag else ChoicePanicked;
      }
      if current.n > nMaxTag && current.n <= nMaxTagValue {
        nMaxTag, tagString := current.n, tags[i];
      }
    }
    assert tags[..|tags|] == tags;
    r := Chosen(nMaxTag, tagString);
  }

  // Without a tag to choose from, the literal is chosen: with its number under the prefix "v",
  // and with zero under the prefixes that cannot read it. And an empty ceiling is v99.99.99.
  lemma ChoiceAtTheEdges(tags: seq<string>, maxTag: string, prefix: string)
    requires !ConvertTagToNumeric(CeilingTag(maxTag), prefix).Panicked?
    ensures MaxTag([], maxTag, prefix)
         == if prefix == "v1." || prefix == "v1.0." then ChoicePanicked
            else Chosen(if prefix == "v" then 10000 else 0, "v1.0.0")
    ensures MaxTag(tags, "", prefix) == MaxTag(tags, "v99.99.99", prefix)
  {
    hide ConvertTagToNumeric;
    BaselineByPrefix(prefix);
  }

  lemma {:induction false} BadPrefixDecides(tags: seq<string>, i: nat, ceiling: int, baseline: int, number: Numbering)
    requires i <= |tags| && !BestOf(tags[..i], ceiling, baseline, number).Chosen?
    ensures BestOf(tags, ceiling, baseline, number) == BestOf(tags[..i], ceiling, baseline, number)
  {
    if i == |tags| {
      assert tags[..i] == tags;
    } else {
      var init := tags[..|tags| - 1];
      assert init[..i] == tags[..i];
      BadPrefixDecides(init, i, ceiling, baseline, number);
    }
  }

  predicate AllConvert(tags: seq<string>, number: Numbering) {
    forall i :: 0 <= i < |tags| ==> number(tags[i]).Value?
  }

  // The first tag that does not convert decides a failing choice. Otherwise the choice is
  // the maximum of the baseline and of the numbers not above the ceiling, together with
  // the first tag attaining it, or with the literal when no tag beats the baseline.
  ghost predicate IsArgmax(tags: seq<string>, ceiling: int, baseline: int, number: Numbering, c: Choice) {
    match c
    case BadTag =>
      exists i :: 0 <= i < |tags| && AllConvert(tags[..i], number) && number(tags[i]).Failed?
    case ChoicePanicked =>
      exists i :: 0 <= i < |tags| && AllConvert(tags[..i], number) && number(tags[i]).Panicked?
    case Chosen(n, tag) =>
      && AllConvert(tags, number)
      && baseline <= n
      && (forall i :: 0 <= i < |tags| && number(tags[i]).n <= ceiling ==> number(tags[i]).n <= n)
      && if n == baseline then tag == BASELINE_TAG
         else n <= ceiling && FirstWith(tags, number, n, tag)
  }

  // `tag` is the first one in the list whose number is n.
  ghost predicate FirstWith(tags: seq<string>, number: Numbering, n: int, tag: string) {
    exists i :: 0 <= i < |tags| && tags[i] == tag && number(tag) == Value(n)
             && forall j :: 0 <= j < i ==> number(tags[j]) != Value(n)
  }

  lemma {:induction false} BestOfIsArgmax(tags: seq<string>, ceiling: int, baseline: int, number: Numbering)
    ensures IsArgmax(tags, ceiling, baseline, number, BestOf(tags, ceiling, baseline, number))
  {
    if tags == [] {
    } else {
      var init, last := tags[..|tags| - 1], tags[|tags| - 1];
      assert tags == init + [last];
      BestOfIsArgmax(init, ceiling, baseline, number);
      var best := BestOf(init, ceiling, baseline, number);
      if best.Chosen? {
        ArgmaxExtends(init, last, ceiling, baseline, number, best);
      } else {
        StillBad(init, last, ceiling, baseline, number, best);
      }
    }
  }

  lemma StillBad(init: seq<string>, last: string, ceiling: int, baseline: int, number: Numbering, best: Choice)
    requires !best.Chosen? && IsArgmax(init, ceiling, baseline, number, best)
    ensures IsArgmax(init + [last], ceiling, baseline, number, best)
  {
    var tags := init + [last];
    var i :| 0 <= i < |init| && AllConvert(init[..i], number)
          && if best.BadTag? then number(init[i]).Failed? else number(init[i]).Panicked?;
    assert tags[..i] == init[..i] && tags[i] == init[i];
  }

  lemma ArgmaxExtends(init: seq<string>, last: string, ceiling: int, baseline: int, number: Numbering, best: Choice)
    requires best.Chosen? && IsArgmax(init, ceiling, baseline, number, best)
    ensures IsArgmax(init + [last], ceiling, baseline, number,
      match number(last)
      case Failed => BadTag
      case Panicked => ChoicePanicked
      case Value(n) => if best.n < n <= ceiling then Chosen(n, last) else best)
  {
    var tags, k := init + [last], |init|;
    assert tags[..k] == init && tags[k] == last;
    assert forall i :: 0 <= i < k ==> tags[i] == init[i];
    if number(last).Value? {
      if best.n < number(last).n <= ceiling {
        assert FirstWith(tags, number, number(last).n, last);
      } else if best.n != baseline {
        var i :| 0 <= i < k && init[i] == best.tag && number(best.tag) == Value(best.n)
              && forall j :: 0 <= j < i ==> number(init[j]) != Value(best.n);
        assert tags[i] == best.tag;
        assert FirstWith(tags, number, best.n, best.tag);
      }
    }
  }

  lemma ConvertsUpTo(tags: seq<string>, i: nat, number: Numbering)
    requires i <= |tags| && AllConvert(tags[..i], number)
    ensures forall j :: 0 <= j < i ==> number(tags[j]).Value?
  {
    assert forall j :: 0 <= j < i ==> tags[..i][j] == tags[j];
  }

  // The declarative choice is unique, so it is what the loop computes.
  lemma ArgmaxIsUnique(tags: seq<string>, ceiling: int, baseline: int, number: Numbering, c: Choice)
    requires IsArgmax(tags, ceiling, baseline, number, c)
    ensures c == BestOf(tags, ceiling, baseline, number)
  {
    BestOfIsArgmax(tags, ceiling, baseline, number);
    var d := BestOf(tags, ceiling, baseline, number);
    if !c.Chosen? && !d.Chosen? {
      var i :| 0 <= i < |tags| && AllConvert(tags[..i], number)
            && if c.BadTag? then number(tags[i]).Failed? else number(tags[i]).Panicked?;
      var j :| 0 <= j < |tags| && AllConvert(tags[..j], number)
            && if d.BadTag? then number(tags[j]).Failed? else number(tags[j]).Panicked?;
      ConvertsUpTo(tags, i, number);
      ConvertsUpTo(tags, j, number);
      assert i == j;
    }
  }

  // The choice fails exactly when some tag does not convert.
  lemma FailsExactlyOnBadTag(tags: seq<string>, ceiling: int, baseline: int, number: Numbering)
    ensures BestOf(tags, ceiling, baseline, number).Chosen? <==> AllConvert(tags, number)
  {
    BestOfIsArgmax(tags, ceiling, baseline, number);
  }

  // Permuting the list changes neither whether the choice fails nor the number chosen.
  lemma ChoiceIgnoresOrder(tags: seq<string>, perm: seq<string>, ceiling: int, baseline: int, number: Numbering)
    requires multiset(tags) == multiset(perm)
    ensures BestOf(tags, ceiling, baseline, number).Chosen? <==> BestOf(perm, ceiling, baseline, number).Chosen?
    ensures BestOf(tags, ceiling, baseline, number).Chosen? ==>
      BestOf(tags, ceiling, baseline, number).n == BestOf(perm, ceiling, baseline, number).n
  {
    hide BestOf, AllConvert, Within;
    FailsExactlyOnBadTag(tags, ceiling, baseline, number);
    FailsExactlyOnBadTag(perm, ceiling, baseline, number);
    SameMembers(tags, perm);
    SameMembers(perm, tags);
    ConvertsWithin(tags, perm, number);
    ConvertsWithin(perm, tags, number);
    if AllConvert(tags, number) {
      NoBetter(tags, perm, ceiling, baseline, number);
      NoBetter(perm, tags, ceiling, baseline, number);
    }
  }

  // Every tag of the one list is in the other.
  ghost predicate Within(tags: seq<string>, perm: seq<string>) {
    forall i :: 0 <= i < |tags| ==> exists j :: 0 <= j < |perm| && perm[j] == tags[i]
  }

  lemma SameMembers(tags: seq<string>, perm: seq<string>)
    requires multiset(tags) == multiset(perm)
    ensures Within(tags, perm)
  {
    forall i | 0 <= i < |tags| ensures exists j :: 0 <= j < |perm| && perm[j] == tags[i] {
      assert tags[i] in multiset(tags);
      assert tags[i] in multiset(perm);
    }
  }

  lemma ConvertsWithin(tags: seq<string>, perm: seq<string>, number: Numbering)
    requires Within(tags, perm)
    ensures AllConvert(perm, number) ==> AllConvert(tags, number)
  {
  }

  lemma NoBetter(tags: seq<string>, perm: seq<string>, ceiling: int, baseline: int, number: Numbering)
    requires Within(tags, perm)
    requires AllConvert(tags, number) && AllConvert(perm, number)
    ensures BestOf(tags, ceiling, baseline, number).Chosen? && BestOf(perm, ceiling, baseline, number).Chosen?
    ensures BestOf(tags, ceiling, baseline, number).n <= BestOf(perm, ceiling, baseline, number).n
  {
    BestOfIsArgmax(tags, ceiling, baseline, number);
    BestOfIsArgmax(perm, ceiling, baseline, number);
    var best := BestOf(tags, ceiling, baseline, number);
    if best.n != baseline {
      var i :| 0 <= i < |tags| && tags[i] == best.tag;
      var j :| 0 <= j < |perm| && perm[j] == tags[i];
      assert number(perm[j]).n <= ceiling;
    }
  }
}
