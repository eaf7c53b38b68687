/** The skill progress bars: every `.skill-progress` element is watched from
    the moment the script runs, page load sets each bar's width to `0%`, and
    the first intersection of a bar sets its width to its `data-progress`
    percentage and stops watching it. */
module SkillBars {
  import opened Dom

  /** The width a bar starts from once the page has loaded. */
  const ZeroWidth: string := "0%"

  /** An element's inline `style.width`; empty when it was never written. */
  function WidthOf(widths: map<ElementId, string>, e: ElementId): string
  {
    if e in widths then widths[e] else ""
  }

  /** The template `${progress}%` for `getAttribute('data-progress')`; a
      missing attribute is `null` and renders as "null". */
  function ProgressWidth(progress: map<ElementId, string>, e: ElementId): (r: string)
    ensures |r| > 0 && r[|r| - 1] == '%'
    ensures e in progress ==> r[..|r| - 1] == progress[e]
    ensures e !in progress ==> r == "null%"
  {
    (if e in progress then progress[e] else "null") + "%"
  }

  predicate IsDigit(c: char)
  {
    '0' <= c <= '9'
  }

  /** One or more decimal digits. */
  predicate IsDigits(s: string)
  {
    |s| > 0 && forall i :: 0 <= i < |s| ==> IsDigit(s[i])
  }

  /** The mantissa of a CSS number: digits, or a `.` followed by digits
      with optional digits before it. */
  predicate IsMantissa(s: string)
  {
    || IsDigits(s)
    || exists k :: 0 <= k < |s| && s[k] == '.' && (k == 0 || IsDigits(s[..k])) && IsDigits(s[k + 1..])
  }

  /** The optional exponent of a CSS number: nothing, or `e`/`E`, an
      optional sign and digits. */
  predicate IsExponent(s: string)
  {
    || |s| == 0
    || (&& |s| >= 2
        && (s[0] == 'e' || s[0] == 'E')
        && (IsDigits(s[1..]) || ((s[1] == '+' || s[1] == '-') && IsDigits(s[2..]))))
  }

  /** A CSS number that is not negative: an optional `+`, a mantissa and an
      optional exponent. */
  predicate IsNonNegativeNumber(s: string)
  {
    var u := if |s| > 0 && s[0] == '+' then s[1..] else s;
    exists k :: 0 <= k <= |u| && IsMantissa(u[..k]) && IsExponent(u[k..])
  }

  /** Whether the inline-style parser accepts `text` as a `width`: a
      percentage token, that is a number immediately followed by `%`, and
      not a negative one (`width` has no negative values). */
  predicate IsPercentage(text: string)
  {
    |text| > 0 && text[|text| - 1] == '%' && IsNonNegativeNumber(text[..|text| - 1])
  }

  /** `el.style.width = text`: a value the parser rejects is dropped and the
      width stays as it was. */
  function SetWidth(widths: map<ElementId, string>, e: ElementId, text: string): (r: map<ElementId, string>)
    ensures WidthOf(r, e) == if IsPercentage(text) then text else WidthOf(widths, e)
    ensures forall x :: x != e ==> WidthOf(r, x) == WidthOf(widths, x)
  {
    if IsPercentage(text) then widths[e := text] else widths
  }

  /** A `data-progress` made of decimal digits, such as "85", gives a width
      the browser accepts. */
  lemma PlainProgressAccepted(progress: string)
    requires IsDigits(progress)
    ensures IsPercentage(progress + "%")
  {
    var text := progress + "%";
    assert text[..|text| - 1] == progress;
    assert progress[0] != '+';
    assert IsMantissa(progress[..|progress|]) && IsExponent(progress[|progress|..]);
  }

  lemma MantissaStart(s: string)
    requires IsMantissa(s)
    ensures |s| > 0 && (IsDigit(s[0]) || s[0] == '.')
  {
    if !IsDigits(s) {
      var k :| 0 <= k < |s| && s[k] == '.' && (k == 0 || IsDigits(s[..k])) && IsDigits(s[k + 1..]);
      if k > 0 {
        assert s[..k][0] == s[0];
      }
    }
  }

  /** A bar without a `data-progress` attribute gets the text "null%", which
      the browser rejects. */
  lemma MissingProgressRejected()
    ensures !IsPercentage("null%")
  {
    var u := "null";
    assert "null%"[..4] == u;
    forall k | 0 <= k <= |u| ensures !IsMantissa(u[..k]) {
      if IsMantissa(u[..k]) {
        MantissaStart(u[..k]);
      }
    }
  }

  /** The widths after `bar.style.width = '0%'` for each of `bars`. */
  function ZeroAll(widths: map<ElementId, string>, bars: seq<ElementId>): map<ElementId, string>
  {
    if |bars| == 0 then widths
    else ZeroAll(widths, bars[..|bars| - 1])[bars[|bars| - 1] := ZeroWidth]
  }

  /** The widths after the bars `targets` have grown to their progress, in order. */
  function Grow(widths: map<ElementId, string>, progress: map<ElementId, string>, targets: seq<ElementId>): map<ElementId, string>
  {
    if |targets| == 0 then widths
    else
      var e := targets[|targets| - 1];
      SetWidth(Grow(widths, progress, targets[..|targets| - 1]), e, ProgressWidth(progress, e))
  }

  /** After page load every bar is at `0%`; nothing else is touched. */
  lemma {:induction false} ZeroAllAt(widths: map<ElementId, string>, bars: seq<ElementId>, e: ElementId)
    ensures WidthOf(ZeroAll(widths, bars), e) == if e in bars then ZeroWidth else WidthOf(widths, e)
  {
    if |bars| > 0 {
      var init := bars[..|bars| - 1];
      ZeroAllAt(widths, init, e);
      assert e in bars <==> e in init || e == bars[|bars| - 1];
    }
  }

  /** After a batch, each intersecting bar whose progress text the browser
      accepts shows it; every other element keeps its width. */
  lemma {:induction false} GrowAt(widths: map<ElementId, string>, progress: map<ElementId, string>, targets: seq<ElementId>, e: ElementId)
    ensures WidthOf(Grow(widths, progress, targets), e) ==
      if e in targets && IsPercentage(ProgressWidth(progress, e)) then ProgressWidth(progress, e) else WidthOf(widths, e)
  {
    if |targets| > 0 {
      var init := targets[..|targets| - 1];
      GrowAt(widths, progress, init, e);
      assert e in targets <==> e in init || e == targets[|targets| - 1];
    }
  }

  /** A bar without `data-progress` keeps its width through any batch. */
  lemma MissingProgressKeepsWidth(widths: map<ElementId, string>, progress: map<ElementId, string>, targets: seq<ElementId>, e: ElementId)
    requires e !in progress
    ensures WidthOf(Grow(widths, progress, targets), e) == WidthOf(widths, e)
  {
    MissingProgressRejected();
    GrowAt(widths, progress, targets, e);
  }

  /** One more entry of a batch: an intersecting bar grows and is unwatched;
      any other entry changes nothing. */
  lemma BatchStep(widths: map<ElementId, string>, progress: map<ElementId, string>, observed: set<ElementId>, entries: seq<Entry>, i: nat)
    requires i < |entries|
    ensures var hits := IntersectingTargets(entries[..i]);
      var e := entries[i].target;
      var next := IntersectingTargets(entries[..i + 1]);
      if entries[i].isIntersecting then
        && Grow(widths, progress, next) == SetWidth(Grow(widths, progress, hits), e, ProgressWidth(progress, e))
        && Unobserved(observed, next) == Unobserved(observed, hits) - {e}
      else next == hits
  {
    IntersectingStep(entries, i);
    var hits := IntersectingTargets(entries[..i]);
    var e := entries[i].target;
    if entries[i].isIntersecting {
      assert (hits + [e])[..|hits|] == hits;
      UnobservedStep(observed, hits, e);
    }
  }

  /** A bar that is no longer watched is not reported, so no batch changes its width. */
  lemma UnwatchedBarKeepsWidth(widths: map<ElementId, string>, progress: map<ElementId, string>, observed: set<ElementId>, entries: seq<Entry>, e: ElementId)
    requires forall k :: 0 <= k < |entries| ==> entries[k].target in observed
    requires e !in observed
    ensures WidthOf(Grow(widths, progress, IntersectingTargets(entries)), e) == WidthOf(widths, e)
  {
    IntersectingTargetsMembers(entries, e);
    GrowAt(widths, progress, IntersectingTargets(entries), e);
  }

  /** Exactly once: a bar that intersected in a first batch shows its
      progress after it (when the browser accepts the text), and a second
      batch, which can only report bars still watched, leaves that width
      as it is. */
  lemma GrowsOnce(widths: map<ElementId, string>, progress: map<ElementId, string>, observed: set<ElementId>, first: seq<Entry>, second: seq<Entry>, e: ElementId)
    requires Entry(e, true) in first
    requires forall k :: 0 <= k < |second| ==> second[k].target in Unobserved(observed, IntersectingTargets(first))
    ensures var once := Grow(widths, progress, IntersectingTargets(first));
      && WidthOf(once, e) == (if IsPercentage(ProgressWidth(progress, e)) then ProgressWidth(progress, e) else WidthOf(widths, e))
      && WidthOf(Grow(once, progress, IntersectingTargets(second)), e) == WidthOf(once, e)
  {
    var k :| 0 <= k < |first| && first[k] == Entry(e, true);
    IntersectingTargetsMembers(first, e);
    var once := Grow(widths, progress, IntersectingTargets(first));
    GrowAt(widths, progress, IntersectingTargets(first), e);
    UnobservedMembers(observed, IntersectingTargets(first), e);
    UnwatchedBarKeepsWidth(once, progress, Unobserved(observed, IntersectingTargets(first)), second, e);
  }

  /** The observer's first report of a bar may come before page load; the
      load then sets the bar back to `0%`, and as the bar is no longer
      watched it stays there. */
  lemma EarlyReportIsOverwritten(widths: map<ElementId, string>, progress: map<ElementId, string>, bars: seq<ElementId>, e: ElementId)
    requires e in bars
    ensures WidthOf(ZeroAll(Grow(widths, progress, [e]), bars), e) == ZeroWidth
  {
    ZeroAllAt(Grow(widths, progress, [e]), bars, e);
  }

  /** The bars' state: their widths and the set the bar observer watches. */
  class BarWatcher {
    /** `document.querySelectorAll('.skill-progress')`, taken when the script runs. */
    const bars: seq<ElementId>
    /** Each bar's `data-progress` attribute; a bar the map does not mention has none. */
    const progress: map<ElementId, string>

    var widths: map<ElementId, string>
    var observed: set<ElementId>

    /** Only bars are ever watched. */
    ghost predicate Valid()
      reads this
    {
      forall e :: e in observed ==> e in bars
    }

    /** Script start: every bar is observed. */
    constructor (bars: seq<ElementId>, progress: map<ElementId, string>, widths: map<ElementId, string>)
      ensures Valid()
      ensures this.bars == bars && this.progress == progress && this.widths == widths
      ensures observed == set e | e in bars
    {
      this.bars := bars;
      this.progress := progress;
      this.widths := widths;
      var i := 0;
      var watched: set<ElementId> := {};
      while i < |bars|
        invariant 0 <= i <= |bars|
        invariant watched == set e | e in bars[..i]
      {
        watched := watched + {bars[i]};
        assert bars[..i + 1] == bars[..i] + [bars[i]];
        i := i + 1;
      }
      assert bars[..i] == bars;
      observed := watched;
    }

    /** The bars' part of page load: every bar's width set to `0%`. */
    method OnContentLoaded()
      requires Valid()
      modifies this
      ensures Valid()
      ensures widths == ZeroAll(old(widths), bars)
      ensures observed == old(observed)
    {
      var i := 0;
      while i < |bars|
        invariant 0 <= i <= |bars|
        invariant widths == ZeroAll(old(widths), bars[..i])
        invariant observed == old(observed)
      {
        widths := widths[bars[i] := ZeroWidth];
        assert bars[..i + 1][..i] == bars[..i];
        i := i + 1;
      }
      assert bars[..i] == bars;
    }

    /** The bar observer's callback for one entry. */
    method HandleEntry(entry: Entry)
      requires Valid()
      modifies this
      ensures Valid()
      ensures entry.isIntersecting ==> widths == SetWidth(old(widths), entry.target, ProgressWidth(progress, entry.target)) && observed == old(observed) - {entry.target}
      ensures !entry.isIntersecting ==> widths == old(widths) && observed == old(observed)
    {
      if entry.isIntersecting {
        var progressBar := entry.target;
        widths := SetWidth(widths, progressBar, ProgressWidth(progress, progressBar));
        observed := observed - {progressBar};
      }
    }

    /** The bar observer's callback for one batch; it reports only watched bars. */
    method OnIntersect(entries: seq<Entry>)
      requires Valid()
      requires forall k :: 0 <= k < |entries| ==> entries[k].target in observed
      modifies this
      ensures Valid()
      ensures widths == Grow(old(widths), progress, IntersectingTargets(entries))
      ensures observed == Unobserved(old(observed), IntersectingTargets(entries))
    {
      var i := 0;
      ghost var hits: seq<ElementId> := [];
      while i < |entries|
        invariant 0 <= i <= |entries|
        invariant Valid()
        invariant hits == IntersectingTargets(entries[..i])
        invariant widths == Grow(old(widths), progress, hits)
        invariant observed == Unobserved(old(observed), hits)
      {
        BatchStep(old(widths), progress, old(observed), entries, i);
        HandleEntry(entries[i]);
        hits := IntersectingTargets(entries[..i + 1]);
        i := i + 1;
      }
      assert entries[..i] == entries;
    }
  }
}
