/** The rule table `initializeAnimations` applies: which animation variant
    and which reveal delay each element of each content group receives, and
    the fixed timeline of the hero section. All of it is pure data. */
module Assignment {
  import opened Dom

  datatype Variant = SlideUp | SlideRight | SlideLeft | SlideFade | ScaleIn | FadeIn

  /** The string stored in `data-animation`, and the suffix of the
      `animate-<variant>` class the reveal adds. */
  function VariantName(v: Variant): string
  {
    match v
    case SlideUp => "slide-up"
    case SlideRight => "slide-right"
    case SlideLeft => "slide-left"
    case SlideFade => "slide-fade"
    case ScaleIn => "scale-in"
    case FadeIn => "fade-in"
  }

  /** Distinct variants are stored as distinct, non-empty strings, so the
      name read back from a dataset determines the variant. */
  lemma VariantNameInjective(v: Variant, w: Variant)
    ensures |VariantName(v)| > 0
    ensures VariantName(v) == VariantName(w) ==> v == w
  {
  }

  /** The content groups, in the order `initializeAnimations` visits them. */
  datatype Group =
    | SectionHeader | AboutIntro | AboutDetails | AboutImage | HighlightItem
    | ProjectCard | SkillCategory | SkillItem | IconItem | ContactSubtitle
    | ContactDescription | ContactItem | ContactForm | SocialLink

  const GroupOrder: seq<Group> := [
    SectionHeader, AboutIntro, AboutDetails, AboutImage, HighlightItem,
    ProjectCard, SkillCategory, SkillItem, IconItem, ContactSubtitle,
    ContactDescription, ContactItem, ContactForm, SocialLink
  ]

  /** The class name each group is selected by. */
  function GroupClass(g: Group): string
  {
    match g
    case SectionHeader => "section-header"
    case AboutIntro => "about-intro"
    case AboutDetails => "about-details"
    case AboutImage => "about-image"
    case HighlightItem => "highlight-item"
    case ProjectCard => "project-card"
    case SkillCategory => "skill-category"
    case SkillItem => "skill-item"
    case IconItem => "icon-item"
    case ContactSubtitle => "contact-subtitle"
    case ContactDescription => "contact-description"
    case ContactItem => "contact-item"
    case ContactForm => "contact-form"
    case SocialLink => "social-link"
  }

  /** Groups looked up with `querySelector`: only their first element is tagged. */
  predicate FirstOnly(g: Group)
  {
    g in {AboutIntro, AboutDetails, AboutImage, ContactSubtitle, ContactDescription, ContactForm}
  }

  /** `animationConfig.stagger`. */
  const Stagger: nat := 100

  /** What an element is tagged with: its variant and, for staggered groups
      only, a delay in milliseconds (`dataset.delay` is left alone otherwise). */
  datatype Assignment = Assignment(variant: Variant, delay: Option<nat>)

  /** The assignment of the element at position `index` of group `g`. */
  function Assign(g: Group, index: nat): Assignment
  {
    match g
    case SectionHeader => Assignment(SlideUp, None)
    case AboutIntro => Assignment(SlideRight, None)
    case AboutDetails => Assignment(SlideRight, None)
    case AboutImage => Assignment(SlideLeft, None)
    case HighlightItem => Assignment(ScaleIn, Some(index * Stagger))
    case ProjectCard => Assignment(SlideFade, Some(index * Stagger))
    case SkillCategory => Assignment(if index % 2 == 0 then SlideRight else SlideLeft, None)
    case SkillItem => Assignment(SlideUp, Some((index % 4) * 50))
    case IconItem => Assignment(ScaleIn, Some(index * 80))
    case ContactSubtitle => Assignment(SlideRight, None)
    case ContactDescription => Assignment(SlideRight, None)
    case ContactItem => Assignment(SlideRight, Some(index * 100))
    case ContactForm => Assignment(SlideLeft, None)
    case SocialLink => Assignment(ScaleIn, Some(index * 80))
  }

  /** Groups whose elements receive a `data-delay`. */
  predicate Staggered(g: Group)
  {
    g in {HighlightItem, ProjectCard, SkillItem, IconItem, ContactItem, SocialLink}
  }

  /** The delay rules of the table, stated per group. */
  lemma DelayRules(g: Group, i: nat)
    ensures Assign(g, i).delay.Some? <==> Staggered(g)
    ensures g in {HighlightItem, ProjectCard, ContactItem} ==> Assign(g, i).delay == Some(i * 100)
    ensures g in {IconItem, SocialLink} ==> Assign(g, i).delay == Some(i * 80)
    ensures g == SkillItem ==> Assign(g, i).delay.Some? && Assign(g, i).delay.value in {0, 50, 100, 150}
  {
  }

  /** Skill items repeat their delays in rows of four, and within a row of
      four consecutive items no two share a delay. */
  lemma SkillItemRows(i: nat, j: nat)
    ensures Assign(SkillItem, i + 4) == Assign(SkillItem, i)
    ensures i < j < i + 4 ==> Assign(SkillItem, i).delay != Assign(SkillItem, j).delay
  {
  }

  /** In a linearly staggered group a later element is revealed strictly later. */
  lemma LinearStaggerIncreases(g: Group, i: nat, j: nat)
    requires g in {HighlightItem, ProjectCard, ContactItem, IconItem, SocialLink}
    requires i < j
    ensures Assign(g, i).delay.Some? && Assign(g, j).delay.Some?
    ensures Assign(g, i).delay.value < Assign(g, j).delay.value
  {
  }

  /** Skill categories alternate: even positions slide in from the right,
      odd ones from the left. */
  lemma SkillCategoriesAlternate(i: nat)
    ensures Assign(SkillCategory, i).variant == (if i % 2 == 0 then SlideRight else SlideLeft)
    ensures Assign(SkillCategory, i + 1).variant != Assign(SkillCategory, i).variant
  {
  }

  /** Groups whose variant does not depend on the position. */
  lemma FixedVariants(i: nat, j: nat)
    ensures forall g :: g != SkillCategory ==> Assign(g, i).variant == Assign(g, j).variant
    ensures Assign(SectionHeader, i).variant == SlideUp
    ensures Assign(AboutIntro, i).variant == SlideRight && Assign(AboutDetails, i).variant == SlideRight
    ensures Assign(AboutImage, i).variant == SlideLeft
    ensures Assign(ContactSubtitle, i).variant == SlideRight && Assign(ContactDescription, i).variant == SlideRight
    ensures Assign(ContactForm, i).variant == SlideLeft
  {
  }

  // ---- The hero timeline ----

  datatype HeroPart = HeroGreeting | HeroName | HeroRole | HeroTagline | HeroButtons | ScrollIndicator

  function HeroClass(p: HeroPart): string
  {
    match p
    case HeroGreeting => "hero-greeting"
    case HeroName => "hero-name"
    case HeroRole => "hero-role"
    case HeroTagline => "hero-tagline"
    case HeroButtons => "hero-buttons"
    case ScrollIndicator => "scroll-indicator"
  }

  datatype HeroStep = HeroStep(part: HeroPart, variant: Variant, delay: nat)

  /** Delay of the timer that starts the hero sequence after page load. */
  const HeroStartDelay: nat := 100

  /** The calls `animateElement(el, variant, delay)` made when that timer fires, in order. */
  const HeroSequence: seq<HeroStep> := [
    HeroStep(HeroGreeting, SlideUp, 0),
    HeroStep(HeroName, SlideUp, 200),
    HeroStep(HeroRole, SlideUp, 400),
    HeroStep(HeroTagline, SlideUp, 600),
    HeroStep(HeroButtons, SlideUp, 800),
    HeroStep(ScrollIndicator, FadeIn, 1000)
  ]

  /** The five text parts slide up 200 ms apart; the scroll indicator fades
      in last, at 1000 ms; no part is animated twice. */
  lemma HeroTimeline()
    ensures |HeroSequence| == 6
    ensures forall k :: 0 <= k < 5 ==> HeroSequence[k].variant == SlideUp && HeroSequence[k].delay == 200 * k
    ensures HeroSequence[5] == HeroStep(ScrollIndicator, FadeIn, 1000)
    ensures forall k, m :: 0 <= k < m < 6 ==> HeroSequence[k].delay < HeroSequence[m].delay
    ensures forall k, m :: 0 <= k < m < 6 ==> HeroSequence[k].part != HeroSequence[m].part
  {
  }
}
