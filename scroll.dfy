/** The active-link highlighting of the scroll handler in
    `initScrollEffects`: the last section whose shifted band contains the
    scroll offset names the current section, and exactly the navigation
    links pointing at it are marked active. */
module ScrollSpy {
  import opened Wrappers

  /** A `section[id]` element: its `id` attribute and its layout offsets,
      taken as whole pixels. */
  datatype Section = Section(id: string, offsetTop: int, offsetHeight: int)

  /** A section becomes current this many pixels before its top reaches the
      top of the viewport. */
  const ActivationOffset: int := 150

  /** The scroll offset lies in the section's band, shifted up by
      `ActivationOffset`; the band includes its start and excludes its end. */
  predicate Covers(s: Section, scrollTop: int) {
    var top := s.offsetTop - ActivationOffset;
    top <= scrollTop < top + s.offsetHeight
  }

  /** The position of the last section, in document order, whose band
      contains the scroll offset. */
  function LastCovering(sections: seq<Section>, scrollTop: int): (r: Option<nat>)
    ensures r.Some? ==> r.value < |sections| && Covers(sections[r.value], scrollTop)
    ensures r.Some? ==> forall j :: r.value < j < |sections| ==> !Covers(sections[j], scrollTop)
    ensures r.None? <==> forall j :: 0 <= j < |sections| ==> !Covers(sections[j], scrollTop)
  {
    if sections == [] then None
    else if Covers(sections[|sections| - 1], scrollTop) then Some(|sections| - 1)
    else LastCovering(sections[..|sections| - 1], scrollTop)
  }

  /** The id the handler settles on: that of the last covering section, or
      the empty string when no section covers the offset. */
  function ActiveId(sections: seq<Section>, scrollTop: int): string {
    match LastCovering(sections, scrollTop)
    case None => ""
    case Some(k) => sections[k].id
  }

  /** The `href` a link must have to be marked active for `current`. */
  function TargetHref(current: string): string {
    "#" + current
  }

  /** The loop over the sections that updates `current`: a later covering
      section overrides an earlier one. */
  method CurrentSection(sections: seq<Section>, scrollTop: int) returns (current: string)
    ensures current == ActiveId(sections, scrollTop)
  {
    current := "";
    for i := 0 to |sections|
      invariant current == ActiveId(sections[..i], scrollTop)
    {
      if Covers(sections[i], scrollTop) {
        current := sections[i].id;
      }
      assert sections[..i + 1][..i] == sections[..i];
    }
    assert sections[..|sections|] == sections;
  }

  /** A `.nav-link` element: its `href` attribute (`None` when the element
      has none, where `getAttribute` gives `null`) and whether its class
      list holds "active". */
  class NavLink {
    const href: Option<string>
    var active: bool

    constructor (href: Option<string>, active: bool)
      ensures this.href == href && this.active == active
    {
      this.href := href;
      this.active := active;
    }
  }

  /** The loop over the links: each loses "active" and regains it when its
      `href` is `"#" + current`. */
  method Highlight(links: seq<NavLink>, current: string)
    modifies set l | l in links
    ensures forall l :: l in links ==> l.active == (l.href == Some(TargetHref(current)))
  {
    for i := 0 to |links|
      invariant forall j :: 0 <= j < i ==> links[j].active == (links[j].href == Some(TargetHref(current)))
    {
      links[i].active := false;
      if links[i].href == Some(TargetHref(current)) {
        links[i].active := true;
      }
    }
  }

  /** One run of the scroll handler's highlighting part. */
  method OnScroll(sections: seq<Section>, scrollTop: int, links: seq<NavLink>)
    modifies set l | l in links
    ensures forall l :: l in links ==> l.active == (l.href == Some(TargetHref(ActiveId(sections, scrollTop))))
  {
    var current := CurrentSection(sections, scrollTop);
    Highlight(links, current);
  }

  /** The current id belongs to a covering section with no covering
      section after it; when no section covers the offset it is empty. */
  lemma ActiveIdIsLastCoveringId(sections: seq<Section>, scrollTop: int)
    ensures (exists k :: 0 <= k < |sections| && Covers(sections[k], scrollTop)) ==>
              exists k :: 0 <= k < |sections| && Covers(sections[k], scrollTop)
                          && ActiveId(sections, scrollTop) == sections[k].id
                          && forall j :: k < j < |sections| ==> !Covers(sections[j], scrollTop)
    ensures (forall k :: 0 <= k < |sections| ==> !Covers(sections[k], scrollTop)) ==>
              ActiveId(sections, scrollTop) == ""
  {
  }

  /** When no section covers the offset, the links marked active are those
      whose `href` is exactly "#". */
  lemma NoCoverTargetsBareHash(sections: seq<Section>, scrollTop: int)
    requires forall k :: 0 <= k < |sections| ==> !Covers(sections[k], scrollTop)
    ensures TargetHref(ActiveId(sections, scrollTop)) == "#"
  {
  }

  /** Appending a section after the others that covers the offset makes it
      the current one, whatever came before. */
  lemma LaterSectionWins(sections: seq<Section>, s: Section, scrollTop: int)
    requires Covers(s, scrollTop)
    ensures ActiveId(sections + [s], scrollTop) == s.id
  {
  }
}
