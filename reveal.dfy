/** The scroll-reveal animator: `initializeAnimations` tags the content
    groups, a one-shot observer reveals each tagged element the first time
    it comes into view, and the hero section plays a fixed timeline after
    load. Timers (`setTimeout`) are explicit values on an abstract clock. */
module Reveal {
  import opened Dom
  import opened JsNumbers
  import opened Assignment

  /** `element.dataset`: the `data-animation` and `data-delay` attributes. */
  datatype Dataset = Dataset(animation: Option<string>, delay: Option<string>)

  function DatasetOf(ds: map<ElementId, Dataset>, e: ElementId): Dataset
  {
    if e in ds then ds[e] else Dataset(None, None)
  }

  /** The element's inline opacity and transform. They are always written
      together: `Offset` is opacity 0 with `translateY(40px)`, `Shown` is
      opacity 1 with transform `none`; `Unstyled` means neither was written. */
  datatype Pose = Unstyled | Offset | Shown

  function PoseOf(poses: map<ElementId, Pose>, e: ElementId): Pose
  {
    if e in poses then poses[e] else Unstyled
  }

  /** The class that marks an element for the reveal observer. */
  const AnimateOnScroll: string := "animate-on-scroll"

  /** The delay of the timer that starts observing after page load. */
  const ObserveDelay: nat := 100

  // ---- Tagging (initializeAnimations) ----

  /** The elements of group `g`: all matches, or only the first for groups
      looked up with `querySelector`. */
  function Members(doc: seq<ElementId>, classes: map<ElementId, set<string>>, g: Group): (r: seq<ElementId>)
    ensures forall e :: e in r ==> e in doc && GroupClass(g) in ClassesOf(classes, e)
    ensures FirstOnly(g) ==> r == (if |Matching(doc, classes, GroupClass(g))| == 0 then [] else [Matching(doc, classes, GroupClass(g))[0]])
    ensures !FirstOnly(g) ==> r == Matching(doc, classes, GroupClass(g))
    ensures NoDuplicates(doc) ==> NoDuplicates(r)
  {
    var all := Matching(doc, classes, GroupClass(g));
    if FirstOnly(g) && |all| > 1 then all[..1] else all
  }

  /** The dataset of an element once it is tagged with `a`: the variant's
      name, and the delay's decimal string when the group has one. */
  function Tagged(d: Dataset, a: Assignment): Dataset
  {
    Dataset(Some(VariantName(a.variant)), if a.delay.Some? then Some(Decimal(a.delay.value)) else d.delay)
  }

  /** The datasets after one element was tagged with `a`. */
  function TagOne(ds: map<ElementId, Dataset>, e: ElementId, a: Assignment): map<ElementId, Dataset>
  {
    ds[e := Tagged(DatasetOf(ds, e), a)]
  }

  /** The datasets after the loop over group `g`'s members `ms` has run. */
  function TagMembers(ds: map<ElementId, Dataset>, ms: seq<ElementId>, g: Group): map<ElementId, Dataset>
  {
    if |ms| == 0 then ds
    else
      var before := TagMembers(ds, ms[..|ms| - 1], g);
      var e := ms[|ms| - 1];
      TagOne(before, e, Assign(g, |ms| - 1))
  }

  /** The class lists after `animate-on-scroll` was added to each of `ms`. */
  function MarkMembers(classes: map<ElementId, set<string>>, ms: seq<ElementId>): map<ElementId, set<string>>
  {
    if |ms| == 0 then classes
    else AddClass(MarkMembers(classes, ms[..|ms| - 1]), ms[|ms| - 1], AnimateOnScroll)
  }

  /** Datasets and class lists after the groups of `groups` were tagged in order. */
  function TagGroups(doc: seq<ElementId>, ds: map<ElementId, Dataset>, classes: map<ElementId, set<string>>, groups: seq<Group>): (map<ElementId, Dataset>, map<ElementId, set<string>>)
  {
    if |groups| == 0 then (ds, classes)
    else
      var (ds', classes') := TagGroups(doc, ds, classes, groups[..|groups| - 1]);
      var g := groups[|groups| - 1];
      var ms := Members(doc, classes', g);
      (TagMembers(ds', ms, g), MarkMembers(classes', ms))
  }

  lemma GroupClassIsNotMarker(g: Group)
    ensures GroupClass(g) != AnimateOnScroll
  {
  }

  /** Marking elements does not change what any group selects. */
  lemma {:induction false} MarkMembersKeepsGroups(doc: seq<ElementId>, classes: map<ElementId, set<string>>, ms: seq<ElementId>, g: Group)
    ensures Members(doc, MarkMembers(classes, ms), g) == Members(doc, classes, g)
  {
    if |ms| > 0 {
      MarkMembersKeepsGroups(doc, classes, ms[..|ms| - 1], g);
      GroupClassIsNotMarker(g);
      MatchingIgnoresOtherClass(doc, MarkMembers(classes, ms[..|ms| - 1]), ms[|ms| - 1], AnimateOnScroll, GroupClass(g));
    }
  }

  lemma {:induction false} TagGroupsKeepsGroups(doc: seq<ElementId>, ds: map<ElementId, Dataset>, classes: map<ElementId, set<string>>, groups: seq<Group>, g: Group)
    ensures Members(doc, TagGroups(doc, ds, classes, groups).1, g) == Members(doc, classes, g)
  {
    if |groups| > 0 {
      TagGroupsKeepsGroups(doc, ds, classes, groups[..|groups| - 1], g);
      var (ds', classes') := TagGroups(doc, ds, classes, groups[..|groups| - 1]);
      MarkMembersKeepsGroups(doc, classes', Members(doc, classes', groups[|groups| - 1]), g);
    }
  }

  /** Marking adds `animate-on-scroll` to exactly the members and changes no
      other class. */
  lemma {:induction false} MarkMembersClasses(classes: map<ElementId, set<string>>, ms: seq<ElementId>, e: ElementId, c: string)
    ensures c in ClassesOf(MarkMembers(classes, ms), e) <==> c in ClassesOf(classes, e) || (c == AnimateOnScroll && e in ms)
  {
    if |ms| > 0 {
      var init := ms[..|ms| - 1];
      MarkMembersClasses(classes, init, e, c);
      assert e in ms <==> e in init || e == ms[|ms| - 1] by {
        assert ms == init + [ms[|ms| - 1]];
      }
    }
  }

  /** Some entry of `xs` satisfies `p`, checked from the last entry back. */
  predicate AnyOf<T>(p: T -> bool, xs: seq<T>)
  {
    |xs| > 0 && (AnyOf(p, xs[..|xs| - 1]) || p(xs[|xs| - 1]))
  }

  lemma {:induction false} AnyOfExists<T>(p: T -> bool, xs: seq<T>)
    ensures AnyOf(p, xs) <==> exists i :: 0 <= i < |xs| && p(xs[i])
  {
    if |xs| > 0 {
      var init := xs[..|xs| - 1];
      AnyOfExists(p, init);
      if AnyOf(p, init) {
        var i :| 0 <= i < |init| && p(init[i]);
        assert xs[i] == init[i];
      }
      if exists i :: 0 <= i < |xs| && p(xs[i]) {
        var i :| 0 <= i < |xs| && p(xs[i]);
        if i < |init| {
          assert init[i] == xs[i];
        }
      }
    }
  }

  /** Element `e` belongs to at least one of the groups. */
  predicate InSomeGroup(doc: seq<ElementId>, classes: map<ElementId, set<string>>, groups: seq<Group>, e: ElementId)
  {
    AnyOf(g => e in Members(doc, classes, g), groups)
  }

  /** After tagging, an element carries `animate-on-scroll` exactly when it
      did before or belongs to one of the tagged groups; every other class
      is as it was. */
  lemma {:induction false} TagGroupsClasses(doc: seq<ElementId>, ds: map<ElementId, Dataset>, classes: map<ElementId, set<string>>, groups: seq<Group>, e: ElementId, c: string)
    ensures c in ClassesOf(TagGroups(doc, ds, classes, groups).1, e) <==>
      c in ClassesOf(classes, e) || (c == AnimateOnScroll && InSomeGroup(doc, classes, groups, e))
  {
    if |groups| > 0 {
      var n := |groups| - 1;
      var init := groups[..n];
      TagGroupsClasses(doc, ds, classes, init, e, c);
      var before := TagGroups(doc, ds, classes, init);
      TagGroupsStep(doc, ds, classes, groups);
      TagGroupsKeepsGroups(doc, ds, classes, init, groups[n]);
      MarkMembersClasses(before.1, Members(doc, before.1, groups[n]), e, c);
    }
  }

  /** The elements `observeAnimatedElements` later watches: after tagging,
      an element of the page matches `.animate-on-scroll` exactly when it
      was marked already or belongs to a tagged group. */
  lemma MarkedAfterTagging(doc: seq<ElementId>, ds: map<ElementId, Dataset>, classes: map<ElementId, set<string>>, groups: seq<Group>, e: ElementId)
    requires e in doc
    ensures e in Matching(doc, TagGroups(doc, ds, classes, groups).1, AnimateOnScroll) <==>
      AnimateOnScroll in ClassesOf(classes, e) || exists i :: 0 <= i < |groups| && e in Members(doc, classes, groups[i])
  {
    TagGroupsClasses(doc, ds, classes, groups, e, AnimateOnScroll);
    AnyOfExists(g => e in Members(doc, classes, g), groups);
  }

  /** The member in position `i` of a group gets that position's assignment. */
  lemma {:induction false} TagMembersAt(ds: map<ElementId, Dataset>, ms: seq<ElementId>, g: Group, i: nat)
    requires NoDuplicates(ms) && i < |ms|
    ensures DatasetOf(TagMembers(ds, ms, g), ms[i]) == Tagged(DatasetOf(ds, ms[i]), Assign(g, i))
  {
    NoDuplicatesInit(ms);
    if i < |ms| - 1 {
      var init := ms[..|ms| - 1];
      assert init[i] == ms[i];
      TagMembersAt(ds, init, g, i);
      TagMembersOther(ds, ms, g, ms[i]);
    } else {
      TagMembersLast(ds, ms, g);
    }
  }

  /** The last member visited gets the assignment of its position. */
  lemma TagMembersLast(ds: map<ElementId, Dataset>, ms: seq<ElementId>, g: Group)
    requires |ms| > 0 && ms[|ms| - 1] !in ms[..|ms| - 1]
    ensures DatasetOf(TagMembers(ds, ms, g), ms[|ms| - 1]) == Tagged(DatasetOf(ds, ms[|ms| - 1]), Assign(g, |ms| - 1))
  {
    TagMembersElsewhere(ds, ms[..|ms| - 1], g, ms[|ms| - 1]);
  }

  /** Visiting the last member leaves every other element's dataset alone. */
  lemma TagMembersOther(ds: map<ElementId, Dataset>, ms: seq<ElementId>, g: Group, e: ElementId)
    requires |ms| > 0 && e != ms[|ms| - 1]
    ensures DatasetOf(TagMembers(ds, ms, g), e) == DatasetOf(TagMembers(ds, ms[..|ms| - 1], g), e)
  {
  }

  /** Elements outside a group keep their dataset. */
  lemma {:induction false} TagMembersElsewhere(ds: map<ElementId, Dataset>, ms: seq<ElementId>, g: Group, e: ElementId)
    requires e !in ms
    ensures DatasetOf(TagMembers(ds, ms, g), e) == DatasetOf(ds, e)
  {
    if |ms| > 0 {
      TagMembersElsewhere(ds, ms[..|ms| - 1], g, e);
    }
  }

  /** One more group visited by `TagGroups`. */
  lemma TagGroupsStep(doc: seq<ElementId>, ds: map<ElementId, Dataset>, classes: map<ElementId, set<string>>, groups: seq<Group>)
    requires |groups| > 0
    ensures var before := TagGroups(doc, ds, classes, groups[..|groups| - 1]);
      var g := groups[|groups| - 1];
      var ms := Members(doc, before.1, g);
      TagGroups(doc, ds, classes, groups) == (TagMembers(before.0, ms, g), MarkMembers(before.1, ms))
  {
  }

  /** The loop over the groups, one group further. */
  lemma TagGroupsPrefixStep(doc: seq<ElementId>, ds: map<ElementId, Dataset>, classes: map<ElementId, set<string>>, groups: seq<Group>, i: nat)
    requires i < |groups|
    ensures var before := TagGroups(doc, ds, classes, groups[..i]);
      var ms := Members(doc, before.1, groups[i]);
      && TagGroups(doc, ds, classes, groups[..i + 1]).0 == TagMembers(before.0, ms, groups[i])
      && TagGroups(doc, ds, classes, groups[..i + 1]).1 == MarkMembers(before.1, ms)
  {
    assert groups[..i + 1][..i] == groups[..i];
    TagGroupsStep(doc, ds, classes, groups[..i + 1]);
  }

  /** After tagging, an element that belongs to exactly one group `g`, in
      position `i`, carries the assignment of `(g, i)`; its `data-delay`
      from the page is kept only when `g` is not staggered. */
  lemma {:induction false} TagGroupsAt(doc: seq<ElementId>, ds: map<ElementId, Dataset>, classes: map<ElementId, set<string>>, groups: seq<Group>, g: Group, i: nat)
    requires NoDuplicates(doc) && NoDuplicates(groups) && g in groups
    requires i < |Members(doc, classes, g)|
    requires forall h :: h in groups && h != g ==> Members(doc, classes, g)[i] !in Members(doc, classes, h)
    ensures DatasetOf(TagGroups(doc, ds, classes, groups).0, Members(doc, classes, g)[i])
      == Tagged(DatasetOf(ds, Members(doc, classes, g)[i]), Assign(g, i))
  {
    var n := |groups| - 1;
    var init := groups[..n];
    if groups[n] == g {
      TagGroupsAtLast(doc, ds, classes, groups, g, i);
    } else {
      var e := Members(doc, classes, g)[i];
      assert g in init by {
        assert groups == init + [groups[n]];
      }
      assert forall h :: h in init ==> h in groups;
      NoDuplicatesInit(groups);
      TagGroupsAt(doc, ds, classes, init, g, i);
      assert e !in Members(doc, classes, groups[n]);
      TagGroupsLastElsewhere(doc, ds, classes, groups, e);
    }
  }

  /** The last group visited leaves the datasets of its non-members alone. */
  lemma TagGroupsLastElsewhere(doc: seq<ElementId>, ds: map<ElementId, Dataset>, classes: map<ElementId, set<string>>, groups: seq<Group>, e: ElementId)
    requires |groups| > 0 && e !in Members(doc, classes, groups[|groups| - 1])
    ensures DatasetOf(TagGroups(doc, ds, classes, groups).0, e) == DatasetOf(TagGroups(doc, ds, classes, groups[..|groups| - 1]).0, e)
  {
    var n := |groups| - 1;
    var init := groups[..n];
    TagGroupsStep(doc, ds, classes, groups);
    TagGroupsKeepsGroups(doc, ds, classes, init, groups[n]);
    var before := TagGroups(doc, ds, classes, init);
    TagMembersElsewhere(before.0, Members(doc, classes, groups[n]), groups[n], e);
  }

  lemma TagGroupsAtLast(doc: seq<ElementId>, ds: map<ElementId, Dataset>, classes: map<ElementId, set<string>>, groups: seq<Group>, g: Group, i: nat)
    requires NoDuplicates(doc) && NoDuplicates(groups) && |groups| > 0 && groups[|groups| - 1] == g
    requires i < |Members(doc, classes, g)|
    requires forall h :: h in groups && h != g ==> Members(doc, classes, g)[i] !in Members(doc, classes, h)
    ensures DatasetOf(TagGroups(doc, ds, classes, groups).0, Members(doc, classes, g)[i])
      == Tagged(DatasetOf(ds, Members(doc, classes, g)[i]), Assign(g, i))
  {
    var n := |groups| - 1;
    var init := groups[..n];
    var e := Members(doc, classes, g)[i];
    NoDuplicatesInit(groups);
    assert forall h :: h in init ==> h in groups && h != g;
    TagGroupsUntouched(doc, ds, classes, init, e);
    TagGroupsStep(doc, ds, classes, groups);
    TagGroupsKeepsGroups(doc, ds, classes, init, g);
    var before := TagGroups(doc, ds, classes, init);
    TagMembersAt(before.0, Members(doc, classes, g), g, i);
  }

  /** An element in none of the visited groups keeps its dataset. */
  lemma {:induction false} TagGroupsUntouched(doc: seq<ElementId>, ds: map<ElementId, Dataset>, classes: map<ElementId, set<string>>, groups: seq<Group>, e: ElementId)
    requires forall h :: h in groups ==> e !in Members(doc, classes, h)
    ensures DatasetOf(TagGroups(doc, ds, classes, groups).0, e) == DatasetOf(ds, e)
  {
    if |groups| > 0 {
      var n := |groups| - 1;
      var init := groups[..n];
      assert forall h :: h in init ==> h in groups;
      TagGroupsUntouched(doc, ds, classes, init, e);
      TagGroupsLastElsewhere(doc, ds, classes, groups, e);
    }
  }

  /** One more member visited by the loop of `TagMembers` and `MarkMembers`. */
  lemma TagMembersStep(ds: map<ElementId, Dataset>, classes: map<ElementId, set<string>>, ms: seq<ElementId>, g: Group, i: nat)
    requires i < |ms|
    ensures var before := TagMembers(ds, ms[..i], g);
      TagMembers(ds, ms[..i + 1], g) == TagOne(before, ms[i], Assign(g, i))
    ensures MarkMembers(classes, ms[..i + 1]) == AddClass(MarkMembers(classes, ms[..i]), ms[i], AnimateOnScroll)
  {
    assert ms[..i + 1][..i] == ms[..i];
  }

  // ---- The observer callback ----

  /** `element.dataset.animation || 'slide-up'`: an absent or empty value falls back. */
  function AnimationType(d: Dataset): (r: string)
    ensures |r| > 0
    ensures d.animation.Some? && |d.animation.value| > 0 ==> r == d.animation.value
    ensures r != VariantName(SlideUp) ==> d.animation == Some(r)
  {
    if d.animation.Some? && |d.animation.value| > 0 then d.animation.value else VariantName(SlideUp)
  }

  function AnimateClass(animationType: string): string
  {
    "animate-" + animationType
  }

  /** The class of every variant the assignment stores is one `classList.add`
      accepts; a `data-animation` holding white space gives one it rejects. */
  lemma AnimateClassToken(v: Variant)
    ensures ClassToken(AnimateClass(VariantName(v)))
    ensures !ClassToken(AnimateClass("fade in"))
  {
    assert AnimateClass("fade in")[12] == ' ';
  }


  /** One call `animateElement(target, animationType, delay)` of the hero sequence. */
  datatype HeroCall = HeroCall(target: ElementId, animationType: string, delay: int)

  datatype Timer =
    /** Reveal `target` and add class `className`. */
    | Show(due: int, target: ElementId, className: string)
    /** Run the hero sequence's calls. */
    | HeroStart(due: int, calls: seq<HeroCall>)
    /** Start observing every `.animate-on-scroll` element. */
    | ObserveAll(due: int)

  /** The timer the callback schedules for an intersecting element with dataset `d`. */
  function RevealTimer(d: Dataset, e: ElementId, now: int): (r: Timer)
    ensures r.Show? && r.target == e && r.due >= now
  {
    Show(now + TimerDelay(DelayFrom(d.delay)), e, AnimateClass(AnimationType(d)))
  }

  function Schedule(targets: seq<ElementId>, ds: map<ElementId, Dataset>, now: int): (r: seq<Timer>)
    ensures |r| == |targets|
  {
    seq(|targets|, k requires 0 <= k < |targets| => RevealTimer(DatasetOf(ds, targets[k]), targets[k], now))
  }

  /** The poses after each of `targets` was set to `Shown`. */
  function ShowAll(poses: map<ElementId, Pose>, targets: seq<ElementId>): (r: map<ElementId, Pose>)
    ensures forall e :: PoseOf(r, e) == if e in targets then Shown else PoseOf(poses, e)
  {
    if |targets| == 0 then poses
    else
      var init := targets[..|targets| - 1];
      assert forall e :: e in targets <==> e in init || e == targets[|targets| - 1];
      ShowAll(poses, init)[targets[|targets| - 1] := Shown]
  }

  lemma ScheduleAppend(targets: seq<ElementId>, e: ElementId, ds: map<ElementId, Dataset>, now: int)
    ensures Schedule(targets + [e], ds, now) == Schedule(targets, ds, now) + [RevealTimer(DatasetOf(ds, e), e, now)]
  {
  }

  lemma ShowAllAppend(poses: map<ElementId, Pose>, targets: seq<ElementId>, e: ElementId)
    ensures ShowAll(poses, targets + [e]) == ShowAll(poses, targets)[e := Shown]
  {
    assert (targets + [e])[..|targets|] == targets;
  }

  /** One more entry of a batch: an intersecting one adds one reveal timer,
      one shown element and one unwatched element; any other changes nothing. */
  lemma BatchStep(timers: seq<Timer>, poses: map<ElementId, Pose>, observed: set<ElementId>, entries: seq<Entry>, i: nat, ds: map<ElementId, Dataset>, now: int)
    requires i < |entries|
    ensures var hits := IntersectingTargets(entries[..i]);
      var e := entries[i].target;
      var next := IntersectingTargets(entries[..i + 1]);
      if entries[i].isIntersecting then
        && timers + Schedule(next, ds, now) == timers + Schedule(hits, ds, now) + [RevealTimer(DatasetOf(ds, e), e, now)]
        && ShowAll(poses, next) == ShowAll(poses, hits)[e := Shown]
        && Unobserved(observed, next) == Unobserved(observed, hits) - {e}
      else next == hits
  {
    IntersectingStep(entries, i);
    var hits := IntersectingTargets(entries[..i]);
    var e := entries[i].target;
    if entries[i].isIntersecting {
      ScheduleAppend(hits, e, ds, now);
      AppendAssoc(timers, Schedule(hits, ds, now), RevealTimer(DatasetOf(ds, e), e, now));
      ShowAllAppend(poses, hits, e);
      UnobservedStep(observed, hits, e);
    }
  }

  /** One-shot reveal: an element revealed by one batch is no longer
      watched, so no later batch, which reports only watched elements,
      schedules it again. */
  lemma RevealedAtMostOnce(observed: set<ElementId>, first: seq<Entry>, second: seq<Entry>, ds: map<ElementId, Dataset>, now: int, e: ElementId)
    requires e in IntersectingTargets(first)
    requires forall k :: 0 <= k < |second| ==> second[k].target in Unobserved(observed, IntersectingTargets(first))
    ensures e !in IntersectingTargets(second)
    ensures forall k :: 0 <= k < |Schedule(IntersectingTargets(second), ds, now)| ==> Schedule(IntersectingTargets(second), ds, now)[k].target != e
  {
    IntersectingTargetsMembers(second, e);
    UnobservedMembers(observed, IntersectingTargets(first), e);
    var later := IntersectingTargets(second);
    forall k | 0 <= k < |later| ensures Schedule(later, ds, now)[k].target != e {
      assert Schedule(later, ds, now)[k].target == later[k];
    }
  }

  /** An element tagged with `a` is revealed with the class of `a`'s variant,
      after exactly `a`'s delay when the group is staggered; otherwise after
      whatever `data-delay` the page gave it (0 when it gave none). */
  lemma TaggedRevealTimer(d: Dataset, a: Assignment, e: ElementId, now: int)
    ensures RevealTimer(Tagged(d, a), e, now) ==
      Show(now + (if a.delay.Some? then a.delay.value else TimerDelay(DelayFrom(d.delay))), e, "animate-" + VariantName(a.variant))
    ensures a.delay.None? && d.delay.None? ==> RevealTimer(Tagged(d, a), e, now).due == now
  {
    VariantNameInjective(a.variant, a.variant);
    if a.delay.Some? {
      DelayFromDecimal(a.delay.value);
    }
  }

  /** An element marked in the page but never tagged slides up with no delay. */
  lemma UntaggedRevealTimer(e: ElementId, now: int)
    ensures RevealTimer(Dataset(None, None), e, now) == Show(now, e, "animate-slide-up")
  {
    var d := Dataset(None, None);
    assert DelayFrom(d.delay) == 0;
    assert AnimationType(d) == VariantName(SlideUp) == "slide-up";
    assert AnimateClass("slide-up") == "animate-slide-up";
  }

  /** The timers the hero sequence's calls schedule, when motion is allowed. */
  function HeroTimers(calls: seq<HeroCall>, now: int): (r: seq<Timer>)
    ensures |r| == |calls|
  {
    seq(|calls|, k requires 0 <= k < |calls| => Show(now + TimerDelay(calls[k].delay), calls[k].target, AnimateClass(calls[k].animationType)))
  }

  function CallTargets(calls: seq<HeroCall>): (r: seq<ElementId>)
    ensures |r| == |calls| && forall k :: 0 <= k < |calls| ==> r[k] == calls[k].target
  {
    seq(|calls|, k requires 0 <= k < |calls| => calls[k].target)
  }

  /** `document.querySelector` for each hero part, in the order of the timeline. */
  function HeroElements(doc: seq<ElementId>, classes: map<ElementId, set<string>>): (r: seq<Option<ElementId>>)
    ensures |r| == |HeroSequence|
    ensures forall k :: 0 <= k < |r| ==> r[k] == FirstMatching(doc, classes, HeroClass(HeroSequence[k].part))
  {
    seq(|HeroSequence|, k requires 0 <= k < |HeroSequence| => FirstMatching(doc, classes, HeroClass(HeroSequence[k].part)))
  }

  /** How many of the looked-up elements exist. */
  function Present(els: seq<Option<ElementId>>): (n: nat)
    ensures n <= |els|
  {
    if |els| == 0 then 0
    else Present(els[..|els| - 1]) + if els[|els| - 1].Some? then 1 else 0
  }

  /** The calls made when the hero timer fires: one per step whose element
      exists, in the order of the steps; a missing element skips its step
      and moves no other call. */
  function HeroCalls(els: seq<Option<ElementId>>, steps: seq<HeroStep>): (r: seq<HeroCall>)
    requires |els| == |steps|
    ensures |r| == Present(els)
  {
    if |steps| == 0 then []
    else
      var init := HeroCalls(els[..|els| - 1], steps[..|steps| - 1]);
      var step := steps[|steps| - 1];
      match els[|els| - 1]
      case None => init
      case Some(e) => init + [HeroCall(e, VariantName(step.variant), step.delay)]
  }

  /** Each present element gets its own step's call, placed after the calls
      of the present elements before it: a missing element drops its step
      and leaves every other call in timeline order. */
  lemma {:induction false} HeroCallsInOrder(els: seq<Option<ElementId>>, steps: seq<HeroStep>, k: nat)
    requires |els| == |steps| && k < |els| && els[k].Some?
    ensures Present(els[..k]) < |HeroCalls(els, steps)|
    ensures HeroCalls(els, steps)[Present(els[..k])] == HeroCall(els[k].value, VariantName(steps[k].variant), steps[k].delay)
  {
    var n := |els| - 1;
    var init := HeroCalls(els[..n], steps[..n]);
    assert HeroCalls(els, steps) == match els[n] case None => init case Some(e) => init + [HeroCall(e, VariantName(steps[n].variant), steps[n].delay)];
    if k < n {
      HeroCallsInOrder(els[..n], steps[..n], k);
      assert els[..n][..k] == els[..k];
      assert els[..n][k] == els[k] && steps[..n][k] == steps[k];
    }
  }

  /** When all six hero elements exist, the hero timer starts the calls of
      the fixed timeline: five slide-ups 200 ms apart, then the fade-in at 1000 ms. */
  lemma {:induction false} HeroCallsAllPresent(els: seq<Option<ElementId>>, steps: seq<HeroStep>)
    requires |els| == |steps|
    requires forall k :: 0 <= k < |els| ==> els[k].Some?
    ensures |HeroCalls(els, steps)| == |steps|
    ensures forall k :: 0 <= k < |steps| ==>
      HeroCalls(els, steps)[k] == HeroCall(els[k].value, VariantName(steps[k].variant), steps[k].delay)
  {
    PresentAll(els);
    forall k | 0 <= k < |steps|
      ensures HeroCalls(els, steps)[k] == HeroCall(els[k].value, VariantName(steps[k].variant), steps[k].delay)
    {
      PresentAll(els[..k]);
      HeroCallsInOrder(els, steps, k);
    }
  }

  lemma {:induction false} PresentAll(els: seq<Option<ElementId>>)
    requires forall k :: 0 <= k < |els| ==> els[k].Some?
    ensures Present(els) == |els|
  {
    if |els| > 0 {
      PresentAll(els[..|els| - 1]);
    }
  }

  lemma HeroTimelineCalls(els: seq<Option<ElementId>>)
    requires |els| == |HeroSequence|
    requires forall k :: 0 <= k < |els| ==> els[k].Some?
    ensures |HeroCalls(els, HeroSequence)| == 6
    ensures forall k :: 0 <= k < 5 ==> HeroCalls(els, HeroSequence)[k] == HeroCall(els[k].value, "slide-up", 200 * k)
    ensures HeroCalls(els, HeroSequence)[5] == HeroCall(els[5].value, "fade-in", 1000)
  {
    HeroCallsAllPresent(els, HeroSequence);
    HeroTimeline();
  }

  /** The timer `initializeAnimations` starts for the hero timeline at instant `now`. */
  function HeroTimer(doc: seq<ElementId>, classes: map<ElementId, set<string>>, now: int): Timer
  {
    HeroStart(now + HeroStartDelay, HeroCalls(HeroElements(doc, classes), HeroSequence))
  }

  /** The poses after the present hero elements were set to `Offset`. */
  function OffsetAll(poses: map<ElementId, Pose>, els: seq<Option<ElementId>>): (r: map<ElementId, Pose>)
    ensures forall e: ElementId :: PoseOf(r, e) == if Some(e) in els then Offset else PoseOf(poses, e)
  {
    if |els| == 0 then poses
    else
      var init := els[..|els| - 1];
      assert forall x :: x in els <==> x in init || x == els[|els| - 1];
      match els[|els| - 1]
      case None => OffsetAll(poses, init)
      case Some(e) => OffsetAll(poses, init)[e := Offset]
  }

  /** One more hero element looked at by the offset loop. */
  lemma OffsetStep(poses: map<ElementId, Pose>, els: seq<Option<ElementId>>, i: nat)
    requires i < |els|
    ensures OffsetAll(poses, els[..i + 1]) == match els[i] case None => OffsetAll(poses, els[..i]) case Some(e) => OffsetAll(poses, els[..i])[e := Offset]
  {
    assert els[..i + 1][..i] == els[..i];
  }

  /** The index of the timer that fires next: the earliest due, and among
      timers due at the same time the one scheduled first. */
  function EarliestTimer(timers: seq<Timer>): (k: nat)
    requires |timers| > 0
    ensures k < |timers|
    ensures forall j :: 0 <= j < |timers| ==> timers[k].due <= timers[j].due
    ensures forall j :: 0 <= j < k ==> timers[j].due > timers[k].due
  {
    if |timers| == 1 then 0
    else
      var k := EarliestTimer(timers[..|timers| - 1]);
      assert forall j :: 0 <= j < |timers| - 1 ==> timers[..|timers| - 1][j] == timers[j];
      if timers[|timers| - 1].due < timers[k].due then |timers| - 1 else k
  }

  function RemoveAt<T>(s: seq<T>, k: nat): (r: seq<T>)
    requires k < |s|
    ensures |r| == |s| - 1
    ensures forall j :: 0 <= j < k ==> r[j] == s[j]
    ensures forall j :: k <= j < |r| ==> r[j] == s[j + 1]
  {
    s[..k] + s[k + 1..]
  }

  /** No pending timer is overdue, and under reduced motion the only timer
      ever set is the one that starts observing. */
  ghost predicate Pending(timers: seq<Timer>, now: int, reducedMotion: bool)
  {
    && (forall k :: 0 <= k < |timers| ==> timers[k].due >= now)
    && (reducedMotion ==> forall k :: 0 <= k < |timers| ==> timers[k].ObserveAll?)
  }

  lemma PendingAppend(timers: seq<Timer>, t: Timer, now: int, reducedMotion: bool)
    requires Pending(timers, now, reducedMotion)
    requires t.due >= now && (reducedMotion ==> t.ObserveAll?)
    ensures Pending(timers + [t], now, reducedMotion)
  {
    var s := timers + [t];
    forall k | 0 <= k < |s| ensures s[k].due >= now && (reducedMotion ==> s[k].ObserveAll?) {
      if k < |timers| { assert s[k] == timers[k]; }
    }
  }

  /** The animator's state: the page's elements, their class lists,
      datasets and poses, the set the observer watches, pending timers and
      the clock. */
  class Animator {
    /** `prefersReducedMotion`, read once when the script loads. */
    const reducedMotion: bool
    /** Every element of the page, in document order. */
    const doc: seq<ElementId>

    var now: int
    var classes: map<ElementId, set<string>>
    var datasets: map<ElementId, Dataset>
    var poses: map<ElementId, Pose>
    var observed: set<ElementId>
    var timers: seq<Timer>

    /** No timer is overdue: each is due now or later; under reduced motion
        the only timer ever set is the one that starts observing. */
    ghost predicate Valid()
      reads this
    {
      NoDuplicates(doc) && Pending(timers, now, reducedMotion)
    }

    constructor (reducedMotion: bool, doc: seq<ElementId>, classes: map<ElementId, set<string>>, datasets: map<ElementId, Dataset>, now: int)
      requires NoDuplicates(doc)
      ensures Valid()
      ensures this.reducedMotion == reducedMotion && this.doc == doc && this.now == now
      ensures this.classes == classes && this.datasets == datasets
      ensures poses == map[] && observed == {} && timers == []
    {
      this.reducedMotion := reducedMotion;
      this.doc := doc;
      this.now := now;
      this.classes := classes;
      this.datasets := datasets;
      poses := map[];
      observed := {};
      timers := [];
    }

    /** The hero half of `initializeAnimations`: the present hero elements
      are offset and the hero timer is started, unless motion is reduced. */
    method PrepareHero()
      requires Valid()
      modifies this
      ensures Valid()
      ensures !reducedMotion ==> poses == OffsetAll(old(poses), HeroElements(doc, classes))
      ensures !reducedMotion ==> timers == old(timers) + [HeroTimer(doc, classes, now)]
      ensures reducedMotion ==> poses == old(poses) && timers == old(timers)
      ensures now == old(now) && classes == old(classes) && datasets == old(datasets) && observed == old(observed)
    {
      if !reducedMotion {
        var els := HeroElements(doc, classes);
        OffsetHero(els);
        var heroTimer := HeroTimer(doc, classes, now);
        PendingAppend(timers, heroTimer, now, reducedMotion);
        timers := timers + [heroTimer];
      }
    }

    /** The `forEach` over the six looked-up hero elements: each present
        one gets opacity 0 and `translateY(40px)`. */
    method OffsetHero(els: seq<Option<ElementId>>)
      requires Valid()
      modifies this
      ensures Valid()
      ensures poses == OffsetAll(old(poses), els)
      ensures now == old(now) && classes == old(classes) && datasets == old(datasets)
      ensures observed == old(observed) && timers == old(timers)
    {
      var i := 0;
      while i < |els|
        invariant 0 <= i <= |els|
        invariant poses == OffsetAll(old(poses), els[..i])
        invariant now == old(now) && classes == old(classes) && datasets == old(datasets)
        invariant observed == old(observed) && timers == old(timers)
      {
        OffsetStep(old(poses), els, i);
        if els[i].Some? {
          poses := poses[els[i].value := Offset];
        }
        i := i + 1;
      }
      assert els[..i] == els;
    }

    /** One `forEach((el, index) => ...)` loop of `initializeAnimations`. */
    method TagGroup(g: Group)
      requires Valid()
      modifies this
      ensures Valid()
      ensures datasets == TagMembers(old(datasets), Members(doc, old(classes), g), g)
      ensures classes == MarkMembers(old(classes), Members(doc, old(classes), g))
      ensures now == old(now) && poses == old(poses) && observed == old(observed) && timers == old(timers)
    {
      TagEach(Members(doc, classes, g), g);
    }

    /** The loop body of one group over its members `ms`, in order: each
        gets the marker class and the assignment of its position. */
    method TagEach(ms: seq<ElementId>, g: Group)
      requires Valid()
      modifies this
      ensures Valid()
      ensures datasets == TagMembers(old(datasets), ms, g)
      ensures classes == MarkMembers(old(classes), ms)
      ensures now == old(now) && poses == old(poses) && observed == old(observed) && timers == old(timers)
    {
      var i := 0;
      while i < |ms|
        invariant 0 <= i <= |ms|
        invariant datasets == TagMembers(old(datasets), ms[..i], g)
        invariant classes == MarkMembers(old(classes), ms[..i])
        invariant now == old(now) && poses == old(poses) && observed == old(observed) && timers == old(timers)
      {
        var e := ms[i];
        TagMembersStep(old(datasets), old(classes), ms, g, i);
        classes := AddClass(classes, e, AnimateOnScroll);
        datasets := TagOne(datasets, e, Assign(g, i));
        i := i + 1;
      }
      assert ms[..i] == ms;
    }

    /** The group half of `initializeAnimations`: every group is tagged, in order. */
    method TagAllGroups()
      requires Valid()
      modifies this
      ensures Valid()
      ensures (datasets, classes) == TagGroups(doc, old(datasets), old(classes), GroupOrder)
      ensures now == old(now) && poses == old(poses) && observed == old(observed) && timers == old(timers)
    {
      var groups := GroupOrder;
      var i := 0;
      while i < |groups|
        invariant 0 <= i <= |groups|
        invariant Valid()
        invariant datasets == TagGroups(doc, old(datasets), old(classes), groups[..i]).0
        invariant classes == TagGroups(doc, old(datasets), old(classes), groups[..i]).1
        invariant now == old(now) && poses == old(poses) && observed == old(observed) && timers == old(timers)
      {
        TagGroupsPrefixStep(doc, old(datasets), old(classes), groups, i);
        TagGroup(groups[i]);
        i := i + 1;
      }
      assert groups[..i] == groups;
    }

    /** `initializeAnimations`. */
    method InitializeAnimations()
      requires Valid()
      modifies this
      ensures Valid()
      ensures !reducedMotion ==> poses == OffsetAll(old(poses), HeroElements(doc, old(classes)))
      ensures !reducedMotion ==> timers == old(timers) + [HeroTimer(doc, old(classes), now)]
      ensures reducedMotion ==> poses == old(poses) && timers == old(timers)
      ensures (datasets, classes) == TagGroups(doc, old(datasets), old(classes), GroupOrder)
      ensures now == old(now) && observed == old(observed)
    {
      PrepareHero();
      TagAllGroups();
    }

    /** The animator's part of page load: tag the page, then start observing
        100 ms later. */
    method OnContentLoaded()
      requires Valid()
      modifies this
      ensures Valid()
      ensures (datasets, classes) == TagGroups(doc, old(datasets), old(classes), GroupOrder)
      ensures !reducedMotion ==> poses == OffsetAll(old(poses), HeroElements(doc, old(classes)))
      ensures !reducedMotion ==> timers == old(timers) + [HeroTimer(doc, old(classes), now), ObserveAll(now + ObserveDelay)]
      ensures reducedMotion ==> poses == old(poses) && timers == old(timers) + [ObserveAll(now + ObserveDelay)]
      ensures now == old(now) && observed == old(observed)
    {
      InitializeAnimations();
      var observeTimer := ObserveAll(now + ObserveDelay);
      PendingAppend(timers, observeTimer, now, reducedMotion);
      ghost var heroTimer := HeroTimer(doc, old(classes), now);
      assert !reducedMotion ==> timers + [observeTimer] == old(timers) + [heroTimer, observeTimer] by {
        if !reducedMotion {
          AppendAssoc(old(timers), [heroTimer], observeTimer);
          assert [heroTimer] + [observeTimer] == [heroTimer, observeTimer];
        }
      }
      timers := timers + [observeTimer];
    }

    /** `observeAnimatedElements`: watch every element marked `animate-on-scroll`. */
    method ObserveAnimatedElements()
      requires Valid()
      modifies this
      ensures Valid()
      ensures observed == old(observed) + set e | e in Matching(doc, classes, AnimateOnScroll)
      ensures now == old(now) && classes == old(classes) && datasets == old(datasets) && poses == old(poses) && timers == old(timers)
    {
      var marked := Matching(doc, classes, AnimateOnScroll);
      var i := 0;
      while i < |marked|
        invariant 0 <= i <= |marked|
        invariant observed == old(observed) + set e | e in marked[..i]
        invariant now == old(now) && classes == old(classes) && datasets == old(datasets) && poses == old(poses) && timers == old(timers)
      {
        observed := observed + {marked[i]};
        assert marked[..i + 1] == marked[..i] + [marked[i]];
        i := i + 1;
      }
      assert marked[..i] == marked;
    }

    /** `animateElement(target, animationType, delay)`. */
    method AnimateElement(target: ElementId, animationType: string, delay: int)
      requires Valid()
      modifies this
      ensures Valid()
      ensures reducedMotion ==> poses == old(poses)[target := Shown] && timers == old(timers)
      ensures !reducedMotion ==> poses == old(poses) && timers == old(timers) + [Show(now + TimerDelay(delay), target, AnimateClass(animationType))]
      ensures now == old(now) && classes == old(classes) && datasets == old(datasets) && observed == old(observed)
    {
      if reducedMotion {
        poses := poses[target := Shown];
      } else {
        timers := timers + [Show(now + TimerDelay(delay), target, AnimateClass(animationType))];
      }
    }

    /** The reveal observer's callback for one entry, at the batch's instant
        `now`: an intersecting element is revealed with its dataset's variant
        and delay and is no longer watched. */
    method HandleEntry(entry: Entry)
      requires Valid()
      modifies this
      ensures Valid()
      ensures !entry.isIntersecting ==> observed == old(observed) && timers == old(timers) && poses == old(poses)
      ensures entry.isIntersecting ==> observed == old(observed) - {entry.target}
      ensures entry.isIntersecting && !reducedMotion ==>
        timers == old(timers) + [RevealTimer(DatasetOf(datasets, entry.target), entry.target, now)] && poses == old(poses)
      ensures entry.isIntersecting && reducedMotion ==> timers == old(timers) && poses == old(poses)[entry.target := Shown]
      ensures now == old(now) && classes == old(classes) && datasets == old(datasets)
    {
      if entry.isIntersecting {
        var element := entry.target;
        if !reducedMotion {
          timers := timers + [RevealTimer(DatasetOf(datasets, element), element, now)];
        } else {
          poses := poses[element := Shown];
        }
        observed := observed - {element};
      }
    }

    /** The reveal observer's callback for one batch of entries, delivered
        at instant `t`. The platform reports only elements it currently
        watches. Every timer due by `t` has fired before the batch, so the
        clock moves to `t` with no timer falling due on the way, and each
        reveal is due its delay after `t`. */
    method OnIntersect(t: int, entries: seq<Entry>)
      requires Valid() && now <= t
      requires forall k :: 0 <= k < |timers| ==> timers[k].due > t
      requires forall k :: 0 <= k < |entries| ==> entries[k].target in observed
      modifies this
      ensures Valid() && now == t
      ensures observed == Unobserved(old(observed), IntersectingTargets(entries))
      ensures !reducedMotion ==> timers == old(timers) + Schedule(IntersectingTargets(entries), datasets, t) && poses == old(poses)
      ensures reducedMotion ==> timers == old(timers) && poses == ShowAll(old(poses), IntersectingTargets(entries))
      ensures classes == old(classes) && datasets == old(datasets)
    {
      now := t;
      var i := 0;
      ghost var hits: seq<ElementId> := [];
      while i < |entries|
        invariant 0 <= i <= |entries|
        invariant Valid()
        invariant hits == IntersectingTargets(entries[..i])
        invariant observed == Unobserved(old(observed), hits)
        invariant !reducedMotion ==> timers == old(timers) + Schedule(hits, datasets, now) && poses == old(poses)
        invariant reducedMotion ==> timers == old(timers) && poses == ShowAll(old(poses), hits)
        invariant now == t && classes == old(classes) && datasets == old(datasets)
      {
        BatchStep(old(timers), old(poses), old(observed), entries, i, datasets, now);
        HandleEntry(entries[i]);
        hits := IntersectingTargets(entries[..i + 1]);
        i := i + 1;
      }
      assert entries[..i] == entries;
    }

    /** The next timer fires: the clock moves to its due time and its
        callback runs. A reveal writes the style first; its `classList.add`
        then throws on a class that is not a valid token, which ends that
        callback with no class added. */
    method FireNext()
      requires Valid() && |timers| > 0
      modifies this
      ensures Valid()
      ensures var t := old(timers)[EarliestTimer(old(timers))];
        && now == t.due
        && (t.Show? ==>
              && timers == RemoveAt(old(timers), EarliestTimer(old(timers)))
              && poses == old(poses)[t.target := Shown]
              && classes == (if ClassToken(t.className) then AddClass(old(classes), t.target, t.className) else old(classes))
              && observed == old(observed))
        && (t.HeroStart? ==>
              && classes == old(classes) && observed == old(observed)
              && poses == old(poses) && timers == RemoveAt(old(timers), EarliestTimer(old(timers))) + HeroTimers(t.calls, t.due))
        && (t.ObserveAll? ==>
              && timers == RemoveAt(old(timers), EarliestTimer(old(timers)))
              && poses == old(poses) && classes == old(classes)
              && observed == old(observed) + set e | e in Matching(doc, old(classes), AnimateOnScroll))
      ensures reducedMotion ==> classes == old(classes) && poses == old(poses)
      ensures datasets == old(datasets)
    {
      var k := EarliestTimer(timers);
      var t := timers[k];
      timers := RemoveAt(timers, k);
      now := t.due;
      match t
      case Show(_, target, className) =>
        poses := poses[target := Shown];
        if ClassToken(className) {
          classes := AddClass(classes, target, className);
        }
      case HeroStart(_, calls) =>
        RunHeroCalls(calls);
      case ObserveAll(_) =>
        ObserveAnimatedElements();
    }

    /** The body of the hero timer: `animateElement` for each present part, in order. */
    method RunHeroCalls(calls: seq<HeroCall>)
      requires Valid()
      modifies this
      ensures Valid()
      ensures !reducedMotion ==> poses == old(poses) && timers == old(timers) + HeroTimers(calls, now)
      ensures reducedMotion ==> poses == ShowAll(old(poses), CallTargets(calls)) && timers == old(timers)
      ensures now == old(now) && classes == old(classes) && datasets == old(datasets) && observed == old(observed)
    {
      var i := 0;
      while i < |calls|
        invariant 0 <= i <= |calls|
        invariant Valid()
        invariant !reducedMotion ==> poses == old(poses) && timers == old(timers) + HeroTimers(calls[..i], now)
        invariant reducedMotion ==> poses == ShowAll(old(poses), CallTargets(calls[..i])) && timers == old(timers)
        invariant now == old(now) && classes == old(classes) && datasets == old(datasets) && observed == old(observed)
      {
        AnimateElement(calls[i].target, calls[i].animationType, calls[i].delay);
        assert HeroTimers(calls[..i + 1], now) == HeroTimers(calls[..i], now) + [Show(now + TimerDelay(calls[i].delay), calls[i].target, AnimateClass(calls[i].animationType))];
        assert CallTargets(calls[..i + 1]) == CallTargets(calls[..i]) + [calls[i].target];
        assert reducedMotion ==> ShowAll(old(poses), CallTargets(calls[..i + 1])) == ShowAll(old(poses), CallTargets(calls[..i]))[calls[i].target := Shown] by {
          assert CallTargets(calls[..i + 1])[..i] == CallTargets(calls[..i]);
        }
        i := i + 1;
      }
      assert calls[..i] == calls;
    }
  }
}
