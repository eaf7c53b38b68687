/** The page-level listeners that drive several components at once: the
    scroll listeners that touch the navigation bar, and the page-load
    handler. */
module Page {
  import opened Dom
  import opened Assignment
  import opened Navigation
  import opened RateLimit
  import opened SkillBars
  import opened Reveal

  /** The cooldown of the throttled scroll listener. */
  const ScrollThrottle: int := 100

  /** One scroll event at instant `t`, through the listeners that concern
      the navigation bar, in the order they were registered: the bar style,
      `activateNavLink` itself, and `throttle(activateNavLink, 100)`, with
      the sections laid out as `sections` during this event. The link state
      is the same whether or not the throttled copy runs. */
  method OnScroll(nav: NavBar, throttle: Throttle<()>, t: int, scrollY: int, sections: seq<Section>)
    requires nav.Valid() && throttle.Valid() && throttle.now <= t
    requires LaidOut(nav.sectionIds, sections)
    requires throttle.limit == ScrollThrottle
    modifies nav, throttle
    ensures nav.Valid() && throttle.Valid()
    ensures nav.scrolled <==> scrollY > ScrolledThreshold
    ensures nav.linkActive == ActiveAfter(old(nav.linkActive), nav.hrefs, sections, scrollY)
    ensures nav.menuActive == old(nav.menuActive) && nav.toggleActive == old(nav.toggleActive)
    ensures throttle.calls == old(throttle.calls) + [Call(t, ())]
    ensures throttle.runs == Throttled(throttle.calls, ScrollThrottle)
  {
    nav.OnScroll(scrollY);
    nav.ActivateNavLink(scrollY, sections);
    var ran := throttle.Invoke(t, ());
    if ran {
      nav.ActivateNavLink(scrollY, sections);
      ActivateIdempotent(old(nav.linkActive), nav.hrefs, sections, scrollY);
    }
  }

  /** The `DOMContentLoaded` handler: the first link is marked active, the
      bars are set to `0%`, the page is tagged, the hero is prepared and
      observing starts 100 ms later. */
  method OnContentLoaded(nav: NavBar, bars: BarWatcher, anim: Animator)
    requires nav.Valid() && bars.Valid() && anim.Valid()
    modifies nav, bars, anim
    ensures nav.Valid() && bars.Valid() && anim.Valid()
    ensures nav.linkActive == if |nav.hrefs| > 0 then old(nav.linkActive)[0 := true] else old(nav.linkActive)
    ensures nav.scrolled == old(nav.scrolled) && nav.menuActive == old(nav.menuActive)
    ensures bars.widths == ZeroAll(old(bars.widths), bars.bars) && bars.observed == old(bars.observed)
    ensures (anim.datasets, anim.classes) == TagGroups(anim.doc, old(anim.datasets), old(anim.classes), GroupOrder)
    ensures !anim.reducedMotion ==> anim.poses == OffsetAll(old(anim.poses), HeroElements(anim.doc, old(anim.classes)))
    ensures !anim.reducedMotion ==> anim.timers == old(anim.timers) + [HeroTimer(anim.doc, old(anim.classes), anim.now), ObserveAll(anim.now + ObserveDelay)]
    ensures anim.reducedMotion ==> anim.poses == old(anim.poses) && anim.timers == old(anim.timers) + [ObserveAll(anim.now + ObserveDelay)]
    ensures anim.now == old(anim.now) && anim.observed == old(anim.observed)
  {
    nav.OnContentLoaded();
    bars.OnContentLoaded();
    anim.OnContentLoaded();
  }
}
