/** The navigation bar: the `scrolled` flag, the mobile menu, and the
    `active` class that marks the link of the section in view. */
module Navigation {
  import opened Dom

  /** Scroll offset past which the bar is drawn in its `scrolled` style. */
  const ScrolledThreshold: int := 50

  /** How far above a section's top its range of scroll offsets begins. */
  const SectionLead: int := 100

  /** A `section[id]` of the page, with its layout box. */
  datatype Section = Section(id: string, offsetTop: int, offsetHeight: int)

  /** The test `activateNavLink` applies to each section at scroll offset `y`. */
  predicate InView(y: int, s: Section)
  {
    var top := s.offsetTop - SectionLead;
    top < y <= top + s.offsetHeight
  }

  /** `querySelector('.nav-link[href="#id"]')`, as a position among the nav links. */
  function LinkFor(hrefs: seq<Option<string>>, id: string): Option<nat>
  {
    FirstIndex(hrefs, Some("#" + id))
  }

  /** The link flags once every link has been cleared and `link` (if any) set. */
  function OnlyActive(n: nat, link: Option<nat>): (r: seq<bool>)
    ensures |r| == n
    ensures forall k :: 0 <= k < n ==> (r[k] <==> link == Some(k))
  {
    seq(n, k => link == Some(k))
  }

  /** One iteration of the loop over the sections. */
  function Visit(active: seq<bool>, hrefs: seq<Option<string>>, s: Section, y: int): seq<bool>
  {
    if InView(y, s) then OnlyActive(|active|, LinkFor(hrefs, s.id)) else active
  }

  /** The link flags after `activateNavLink` has visited `sections` in document order. */
  function ActiveAfter(active: seq<bool>, hrefs: seq<Option<string>>, sections: seq<Section>, y: int): (r: seq<bool>)
    ensures |r| == |active|
  {
    if |sections| == 0 then active
    else Visit(ActiveAfter(active, hrefs, sections[..|sections| - 1], y), hrefs, sections[|sections| - 1], y)
  }

  /** The last section in document order whose range contains `y`. */
  function LastInView(sections: seq<Section>, y: int): (r: Option<nat>)
    ensures r.None? <==> forall j :: 0 <= j < |sections| ==> !InView(y, sections[j])
    ensures r.Some? ==> r.value < |sections| && InView(y, sections[r.value])
    ensures r.Some? ==> forall j :: r.value < j < |sections| ==> !InView(y, sections[j])
  {
    if |sections| == 0 then None
    else if InView(y, sections[|sections| - 1]) then Some(|sections| - 1)
    else LastInView(sections[..|sections| - 1], y)
  }

  /** The loop's outcome in closed form: when no section is in view the
      flags are left as they were; otherwise the last section in view
      decides, and only its link (if it has one) is active. */
  lemma {:induction false} ActiveAfterLastInView(active: seq<bool>, hrefs: seq<Option<string>>, sections: seq<Section>, y: int)
    ensures ActiveAfter(active, hrefs, sections, y) ==
      match LastInView(sections, y)
      case None => active
      case Some(j) => OnlyActive(|active|, LinkFor(hrefs, sections[j].id))
  {
    if |sections| > 0 {
      var init := sections[..|sections| - 1];
      ActiveAfterLastInView(active, hrefs, init, y);
      if !InView(y, sections[|sections| - 1]) {
        assert LastInView(sections, y) == LastInView(init, y);
        match LastInView(init, y)
        case None =>
        case Some(j) => assert init[j] == sections[j];
      }
    }
  }

  /** The active-link rule as the page promises it: if some section is in
      view, exactly the link whose href is `#id` of the last such section is
      active (none if that section has no link); otherwise nothing changes. */
  lemma ActiveLinkSelection(active: seq<bool>, hrefs: seq<Option<string>>, sections: seq<Section>, y: int)
    requires |active| == |hrefs|
    ensures (forall j :: 0 <= j < |sections| ==> !InView(y, sections[j])) ==> ActiveAfter(active, hrefs, sections, y) == active
    ensures forall j, k :: 0 <= j < |sections| && InView(y, sections[j]) && (forall m :: j < m < |sections| ==> !InView(y, sections[m])) && 0 <= k < |active| ==>
      (ActiveAfter(active, hrefs, sections, y)[k] <==> hrefs[k] == Some("#" + sections[j].id) && Some("#" + sections[j].id) !in hrefs[..k])
  {
    ActiveAfterLastInView(active, hrefs, sections, y);
    forall j, k | 0 <= j < |sections| && InView(y, sections[j]) && (forall m :: j < m < |sections| ==> !InView(y, sections[m])) && 0 <= k < |active|
      ensures ActiveAfter(active, hrefs, sections, y)[k] <==> hrefs[k] == Some("#" + sections[j].id) && Some("#" + sections[j].id) !in hrefs[..k]
    {
      assert LastInView(sections, y) == Some(j);
      var link := Some("#" + sections[j].id);
      if hrefs[k] == link && link !in hrefs[..k] {
        FirstIndexAt(hrefs, link, k);
      }
    }
  }

  /** After any visit at least one section of which was in view, at most one link is active. */
  lemma AtMostOneActive(active: seq<bool>, hrefs: seq<Option<string>>, sections: seq<Section>, y: int)
    requires exists j :: 0 <= j < |sections| && InView(y, sections[j])
    ensures forall k, m :: 0 <= k < m < |active| ==> !(ActiveAfter(active, hrefs, sections, y)[k] && ActiveAfter(active, hrefs, sections, y)[m])
  {
    ActiveAfterLastInView(active, hrefs, sections, y);
  }

  /** `activateNavLink` runs both as a direct scroll listener and through the
      throttled one, so at one offset it may run twice: the second run
      changes nothing. */
  lemma ActivateIdempotent(active: seq<bool>, hrefs: seq<Option<string>>, sections: seq<Section>, y: int)
    ensures ActiveAfter(ActiveAfter(active, hrefs, sections, y), hrefs, sections, y) == ActiveAfter(active, hrefs, sections, y)
  {
    var once := ActiveAfter(active, hrefs, sections, y);
    ActiveAfterLastInView(active, hrefs, sections, y);
    ActiveAfterLastInView(once, hrefs, sections, y);
  }

  /** `sections` is the page's layout of the sections whose ids are `ids`,
      as `activateNavLink` reads it at one call: one box per section, in the
      order `querySelectorAll('section[id]')` returned them. */
  predicate LaidOut(ids: seq<string>, sections: seq<Section>)
  {
    |sections| == |ids| && forall i :: 0 <= i < |sections| ==> sections[i].id == ids[i]
  }

  /** The navigation bar's class state. `linkActive[k]` is whether the k-th
      `.nav-link` (in document order) carries `active`. */
  class NavBar {
    /** The `href` attribute of each `.nav-link`, in document order. */
    const hrefs: seq<Option<string>>
    /** The ids of `document.querySelectorAll('section[id]')`, taken once
        when the script loads. Their layout boxes are read again on every
        call of `activateNavLink`, so they are an argument of that method. */
    const sectionIds: seq<string>

    var scrolled: bool
    var menuActive: bool
    var toggleActive: bool
    var linkActive: seq<bool>

    /** One flag per link; the menu panel and its toggle button are open or closed together. */
    ghost predicate Valid()
      reads this
    {
      |linkActive| == |hrefs| && menuActive == toggleActive
    }

    constructor (hrefs: seq<Option<string>>, sectionIds: seq<string>, menuOpen: bool, linkActive: seq<bool>)
      requires |linkActive| == |hrefs|
      ensures Valid()
      ensures this.hrefs == hrefs && this.sectionIds == sectionIds
      ensures !scrolled && menuActive == menuOpen && this.linkActive == linkActive
    {
      this.hrefs := hrefs;
      this.sectionIds := sectionIds;
      scrolled := false;
      menuActive, toggleActive := menuOpen, menuOpen;
      this.linkActive := linkActive;
    }

    /** The scroll listener that styles the bar. */
    method OnScroll(scrollY: int)
      requires Valid()
      modifies this
      ensures Valid()
      ensures scrolled <==> scrollY > ScrolledThreshold
      ensures menuActive == old(menuActive) && toggleActive == old(toggleActive) && linkActive == old(linkActive)
    {
      if scrollY > ScrolledThreshold {
        scrolled := true;
      } else {
        scrolled := false;
      }
    }

    /** A click on the menu toggle flips both the panel and the button. */
    method OnToggleClick()
      requires Valid()
      modifies this
      ensures Valid()
      ensures menuActive == !old(menuActive) && toggleActive == !old(toggleActive)
      ensures scrolled == old(scrolled) && linkActive == old(linkActive)
    {
      menuActive := !menuActive;
      toggleActive := !toggleActive;
    }

    /** A click on any nav link closes the menu, whatever its state. */
    method OnLinkClick()
      requires Valid()
      modifies this
      ensures Valid()
      ensures !menuActive && !toggleActive
      ensures scrolled == old(scrolled) && linkActive == old(linkActive)
    {
      menuActive := false;
      toggleActive := false;
    }

    /** `activateNavLink` at scroll offset `scrollY`, with the sections laid
        out as `sections` at that moment. */
    method ActivateNavLink(scrollY: int, sections: seq<Section>)
      requires Valid() && LaidOut(sectionIds, sections)
      modifies this
      ensures Valid()
      ensures linkActive == ActiveAfter(old(linkActive), hrefs, sections, scrollY)
      ensures scrolled == old(scrolled) && menuActive == old(menuActive) && toggleActive == old(toggleActive)
    {
      var i := 0;
      while i < |sections|
        invariant 0 <= i <= |sections|
        invariant Valid()
        invariant linkActive == ActiveAfter(old(linkActive), hrefs, sections[..i], scrollY)
        invariant scrolled == old(scrolled) && menuActive == old(menuActive) && toggleActive == old(toggleActive)
      {
        var section := sections[i];
        var navLink := LinkFor(hrefs, section.id);
        if InView(scrollY, section) {
          var k := 0;
          while k < |linkActive|
            invariant 0 <= k <= |linkActive| == |hrefs|
            invariant forall m :: 0 <= m < k ==> !linkActive[m]
            invariant scrolled == old(scrolled) && menuActive == old(menuActive) && toggleActive == old(toggleActive)
          {
            linkActive := linkActive[k := false];
            k := k + 1;
          }
          if navLink.Some? {
            linkActive := linkActive[navLink.value := true];
          }
          assert linkActive == OnlyActive(|hrefs|, navLink);
        }
        assert sections[..i + 1][..i] == sections[..i];
        i := i + 1;
      }
      assert sections[..i] == sections;
    }

    /** Page load marks the first link active, if there is one. */
    method OnContentLoaded()
      requires Valid()
      modifies this
      ensures Valid()
      ensures linkActive == if |hrefs| > 0 then old(linkActive)[0 := true] else old(linkActive)
      ensures scrolled == old(scrolled) && menuActive == old(menuActive) && toggleActive == old(toggleActive)
    {
      if |hrefs| > 0 {
        linkActive := linkActive[0 := true];
      }
    }
  }

  /** Two clicks on the toggle return the menu to where it was. */
  method ToggleTwice(nav: NavBar)
    requires nav.Valid()
    modifies nav
    ensures nav.Valid()
    ensures nav.menuActive == old(nav.menuActive) && nav.toggleActive == old(nav.toggleActive)
    ensures nav.scrolled == old(nav.scrolled) && nav.linkActive == old(nav.linkActive)
  {
    nav.OnToggleClick();
    nav.OnToggleClick();
  }
}
