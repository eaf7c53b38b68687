/** Clicks on same-page anchors (`a[href^="#"]`): the default jump is
    suppressed and the window scrolls so that the target sits just below
    the fixed navigation bar. */
module SmoothScroll {
  import opened Dom

  /** Height reserved for the fixed navigation bar. */
  const NavbarOffset: int := 80

  /** An element of the page that has an `id`, with its `offsetTop`. */
  datatype Target = Target(id: string, offsetTop: int)

  predicate IsNameStart(c: char)
  {
    ('a' <= c <= 'z') || ('A' <= c <= 'Z') || c == '_' || c >= '\U{0080}'
  }

  predicate IsNameChar(c: char)
  {
    IsNameStart(c) || ('0' <= c <= '9') || c == '-'
  }

  /** A CSS identifier without escapes: it may not begin with a digit, nor
      with a hyphen followed by a digit. */
  predicate IsIdentifier(name: string)
  {
    && |name| > 0
    && (forall i :: 0 <= i < |name| ==> IsNameChar(name[i]))
    && (IsNameStart(name[0]) || (name[0] == '-' && |name| > 1 && (IsNameStart(name[1]) || name[1] == '-')))
  }

  function Ids(targets: seq<Target>): (r: seq<string>)
    ensures |r| == |targets| && forall i :: 0 <= i < |targets| ==> r[i] == targets[i].id
  {
    seq(|targets|, i requires 0 <= i < |targets| => targets[i].id)
  }

  /** `document.querySelector(href)` for an `href` of the form `#name`
      where `name` is a CSS identifier: the first element whose id is
      `name`. Any other `href` is None. For a bare `#` or a fragment that
      starts with a digit the selector is invalid, and the call throws after
      the default action was already prevented, so nothing else happens.
      Fragments such as `a.b`, `a b` or `a,#b` form valid compound
      selectors that can match; this model does not resolve them. */
  function Resolve(href: string, targets: seq<Target>): (r: Option<nat>)
    ensures r.Some? ==> r.value < |targets| && href == "#" + targets[r.value].id && IsIdentifier(targets[r.value].id)
    ensures r.Some? ==> forall j :: 0 <= j < r.value ==> targets[j].id != targets[r.value].id
  {
    if |href| >= 1 && href[0] == '#' && IsIdentifier(href[1..]) then
      var r := FirstIndex(Ids(targets), href[1..]);
      assert r.Some? ==> forall j :: 0 <= j < r.value ==> Ids(targets)[..r.value][j] == targets[j].id;
      assert href == "#" + href[1..];
      r
    else None
  }

  /** The scroll position after a click on an anchor to `href`, from position `scrollY`. */
  function ScrollAfterClick(href: string, targets: seq<Target>, scrollY: int): (r: int)
    ensures Resolve(href, targets).None? ==> r == scrollY
    ensures Resolve(href, targets).Some? ==> r + NavbarOffset == targets[Resolve(href, targets).value].offsetTop
  {
    match Resolve(href, targets)
    case None => scrollY
    case Some(i) => targets[i].offsetTop - NavbarOffset
  }

  /** Seen from the target: a link to `#id` of the first element with that id
      scrolls to exactly its `offsetTop - 80`. */
  lemma ClickScrollsToTarget(targets: seq<Target>, i: nat, scrollY: int)
    requires i < |targets| && IsIdentifier(targets[i].id)
    requires forall j :: 0 <= j < i ==> targets[j].id != targets[i].id
    ensures ScrollAfterClick("#" + targets[i].id, targets, scrollY) == targets[i].offsetTop - NavbarOffset
  {
    var href := "#" + targets[i].id;
    assert href[1..] == targets[i].id;
    assert targets[i].id !in Ids(targets)[..i] by {
      forall j | 0 <= j < i ensures Ids(targets)[..i][j] != targets[i].id {
      }
    }
    FirstIndexAt(Ids(targets), targets[i].id, i);
  }

  /** When no element has the id, the page does not move. */
  lemma MissingTargetKeepsPosition(name: string, targets: seq<Target>, scrollY: int)
    requires forall j :: 0 <= j < |targets| ==> targets[j].id != name
    ensures ScrollAfterClick("#" + name, targets, scrollY) == scrollY
  {
    var href := "#" + name;
    assert href[1..] == name;
    assert name !in Ids(targets);
  }

  /** A bare `#` and a fragment that starts with a digit are invalid selectors: no scroll. */
  lemma InvalidSelectorKeepsPosition(targets: seq<Target>, scrollY: int, rest: string)
    ensures ScrollAfterClick("#", targets, scrollY) == scrollY
    ensures ScrollAfterClick("#1" + rest, targets, scrollY) == scrollY
  {
    assert ("#1" + rest)[1..][0] == '1';
  }
}
