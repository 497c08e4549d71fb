/** Page navigation (`Navigation`): the mobile menu's two "active" flags and
    its aria-expanded text, the navbar shadow, the scroll target of an anchor
    link below the fixed header, and the highlighting of the nav link whose
    section is under the reading line. */
module Nav {
  import opened Wrappers

  /** The reading line sits this far below the top of the viewport. */
  const ActivationOffset := 200
  /** Header height assumed when the page has no navbar. */
  const DefaultHeaderHeight := 70
  /** Scroll position beyond which the navbar casts a shadow. */
  const ShadowThreshold := 50

  /** A `section[id]` element: its id, `offsetTop` and `clientHeight`. */
  datatype Section = Section(id: string, top: int, height: nat)

  predicate Covers(s: Section, pos: int) {
    s.top <= pos < s.top + s.height
  }

  /** Id of the last section, in document order, that covers `pos`; "" if none does. */
  function LastCovering(sections: seq<Section>, pos: int): string {
    if sections == [] then ""
    else if Covers(sections[|sections| - 1], pos) then sections[|sections| - 1].id
    else LastCovering(sections[..|sections| - 1], pos)
  }

  /** When no section covers `pos`, nothing is current. */
  lemma {:induction false} LastCoveringNone(sections: seq<Section>, pos: int)
    requires forall k :: 0 <= k < |sections| ==> !Covers(sections[k], pos)
    ensures LastCovering(sections, pos) == ""
  {
    if sections != [] {
      var init := sections[..|sections| - 1];
      forall k | 0 <= k < |init| ensures !Covers(init[k], pos) {
        assert init[k] == sections[k];
      }
      LastCoveringNone(init, pos);
    }
  }

  /** Otherwise the current id is that of the last covering section: a later
      section wins over an earlier one when both cover `pos`. */
  lemma {:induction false} LastCoveringPicksLast(sections: seq<Section>, pos: int, k: nat)
    requires k < |sections| && Covers(sections[k], pos)
    requires forall j :: k < j < |sections| ==> !Covers(sections[j], pos)
    ensures LastCovering(sections, pos) == sections[k].id
  {
    if k < |sections| - 1 {
      var init := sections[..|sections| - 1];
      assert init[k] == sections[k];
      forall j | k < j < |init| ensures !Covers(init[j], pos) {
        assert init[j] == sections[j];
      }
      LastCoveringPicksLast(init, pos, k);
    }
  }

  /** The first loop of `highlightActiveSection`: scan the sections in order and
      keep the id of the last one that covers `scrollY + 200`. */
  method ActiveSection(sections: seq<Section>, scrollY: int) returns (current: string)
    ensures current == LastCovering(sections, scrollY + ActivationOffset)
  {
    current := "";
    var i := 0;
    while i < |sections|
      invariant 0 <= i <= |sections|
      invariant current == LastCovering(sections[..i], scrollY + ActivationOffset)
    {
      var scrollPosition := scrollY + ActivationOffset;
      if scrollPosition >= sections[i].top && scrollPosition < sections[i].top + sections[i].height {
        current := sections[i].id;
      }
      assert sections[..i + 1][..i] == sections[..i];
      i := i + 1;
    }
    assert sections[..i] == sections;
  }

  /** Height subtracted from an anchor target: the navbar's, else 70. */
  function HeaderHeight(navbarHeight: Option<nat>): int {
    if navbarHeight.Some? then navbarHeight.value else DefaultHeaderHeight
  }

  /** Where `smoothScroll` scrolls to for a target at `targetTop` (None when the
      fragment names no element, and then nothing scrolls). */
  function ScrollTarget(targetTop: Option<int>, navbarHeight: Option<nat>): Option<int> {
    if targetTop.Some? then Some(targetTop.value - HeaderHeight(navbarHeight)) else None
  }

  /** Clicking the link to a section that is taller than the gap between the
      header and the reading line makes that section the highlighted one, as long
      as no later section also covers the reading line. */
  lemma ScrollHighlightsTarget(sections: seq<Section>, k: nat, navbarHeight: Option<nat>)
    requires k < |sections|
    requires HeaderHeight(navbarHeight) <= ActivationOffset
    requires ActivationOffset - HeaderHeight(navbarHeight) < sections[k].height
    requires forall j :: k < j < |sections| ==>
               !Covers(sections[j], sections[k].top - HeaderHeight(navbarHeight) + ActivationOffset)
    ensures ScrollTarget(Some(sections[k].top), navbarHeight).Some?
    ensures LastCovering(sections, ScrollTarget(Some(sections[k].top), navbarHeight).value + ActivationOffset)
            == sections[k].id
  {
    var pos := sections[k].top - HeaderHeight(navbarHeight) + ActivationOffset;
    LastCoveringPicksLast(sections, pos, k);
  }

  /** `element.classList.contains(...).toString()`. */
  function BoolText(b: bool): string {
    if b then "true" else "false"
  }

  ghost predicate AllDistinct(s: seq<string>) {
    forall i, j :: 0 <= i < j < |s| ==> s[i] != s[j]
  }

  class Navigation {
    /** "active" class of the hamburger button. */
    var hamburgerActive: bool
    /** "active" class of the menu panel. */
    var menuActive: bool
    /** aria-expanded attribute of the hamburger button. */
    var ariaExpanded: string
    /** Height of the navbar, None when the page has none. */
    const navbarHeight: Option<nat>
    /** Whether the navbar currently casts its scroll shadow. */
    var raised: bool
    /** `href` of every `.nav-link`, in document order. */
    const hrefs: seq<string>
    /** "active" class of every `.nav-link`. */
    const linkActive: array<bool>

    ghost predicate Valid()
      reads this
    {
      linkActive.Length == |hrefs|
    }

    /** The page as loaded: menu closed, no shadow, no link highlighted. */
    constructor (hrefs: seq<string>, navbarHeight: Option<nat>)
      ensures Valid() && fresh(linkActive)
      ensures this.hrefs == hrefs && this.navbarHeight == navbarHeight
      ensures !hamburgerActive && !menuActive && ariaExpanded == "false" && !raised
      ensures forall k :: 0 <= k < linkActive.Length ==> !linkActive[k]
    {
      this.hrefs := hrefs;
      this.navbarHeight := navbarHeight;
      hamburgerActive, menuActive, ariaExpanded, raised := false, false, "false", false;
      linkActive := new bool[|hrefs|](_ => false);
    }

    /** Flips both flags independently and mirrors the button's flag in aria-expanded. */
    method ToggleMobileMenu()
      modifies this`hamburgerActive, this`menuActive, this`ariaExpanded
      ensures hamburgerActive == !old(hamburgerActive) && menuActive == !old(menuActive)
      ensures ariaExpanded == BoolText(hamburgerActive)
    {
      hamburgerActive := !hamburgerActive;
      menuActive := !menuActive;
      ariaExpanded := if hamburgerActive then "true" else "false";
    }

    method CloseMobileMenu()
      modifies this`hamburgerActive, this`menuActive, this`ariaExpanded
      ensures !hamburgerActive && !menuActive && ariaExpanded == "false"
    {
      hamburgerActive := false;
      menuActive := false;
      ariaExpanded := "false";
    }

    /** `handleScroll`: without a navbar nothing changes. */
    method HandleScroll(scrollY: int)
      modifies this`raised
      ensures raised == if navbarHeight.Some? then scrollY > ShadowThreshold else old(raised)
    {
      if navbarHeight.Some? {
        raised := scrollY > ShadowThreshold;
      }
    }

    /** `highlightActiveSection`: exactly the links pointing at the current
        section are active afterwards; with distinct hrefs, at most one is. */
    method HighlightActiveSection(sections: seq<Section>, scrollY: int)
      requires Valid()
      modifies linkActive
      ensures forall k :: 0 <= k < |hrefs| ==>
                linkActive[k] == (hrefs[k] == "#" + LastCovering(sections, scrollY + ActivationOffset))
      ensures AllDistinct(hrefs) ==>
                forall i, j :: 0 <= i < j < |hrefs| ==> !(linkActive[i] && linkActive[j])
    {
      var current := ActiveSection(sections, scrollY);
      var k := 0;
      while k < linkActive.Length
        invariant 0 <= k <= linkActive.Length
        invariant forall m :: 0 <= m < k ==> linkActive[m] == (hrefs[m] == "#" + current)
      {
        linkActive[k] := false;
        if hrefs[k] == "#" + current {
          linkActive[k] := true;
        }
        k := k + 1;
      }
    }
  }
}
