/** highlightNav of script.js: pick the id of the last section whose top,
    less an offset of 200, the page has scrolled to, and colour gold the
    navigation links whose fragment is that id, every other link white. */
module NavHighlight {
  import opened Options

  /** How far above a section's top it already counts as reached. */
  const SectionLead: real := 200.0

  /** A `<section>`: its id attribute (absent when it has none) and offsetTop. */
  datatype Section = Section(id: Option<string>, offsetTop: real)

  /** `#ffffff` and `#FFD700`. */
  datatype Color = White | Gold

  predicate Reached(s: Section, pageYOffset: real)
  {
    pageYOffset >= s.offsetTop - SectionLead
  }

  /** `href.slice(1)`: the href without its first character. */
  function Fragment(href: string): string
  {
    if |href| == 0 then "" else href[1..]
  }

  /** The id the section scan ends with: the last reached section's id,
      or the initial empty string when no section is reached. */
  function ChosenId(sections: seq<Section>, pageYOffset: real): (c: Option<string>)
    ensures c == Some("") || exists i :: 0 <= i < |sections| && c == sections[i].id
    decreases |sections|
  {
    if |sections| == 0 then Some("")
    else
      var last := sections[|sections| - 1];
      if Reached(last, pageYOffset) then last.id
      else ChosenId(sections[..|sections| - 1], pageYOffset)
  }

  /** ChosenId is the id of the last reached section in document order. */
  lemma {:induction false} ChosenIsLastReached(sections: seq<Section>, pageYOffset: real, i: nat)
    requires i < |sections| && Reached(sections[i], pageYOffset)
    requires forall j :: i < j < |sections| ==> !Reached(sections[j], pageYOffset)
    ensures ChosenId(sections, pageYOffset) == sections[i].id
    decreases |sections|
  {
    if i < |sections| - 1 {
      var init := sections[..|sections| - 1];
      assert !Reached(sections[|sections| - 1], pageYOffset);
      assert forall j :: i < j < |init| ==> init[j] == sections[j];
      ChosenIsLastReached(init, pageYOffset, i);
    }
  }

  /** With no section reached, ChosenId is the initial empty string. */
  lemma {:induction false} ChosenWhenNoneReached(sections: seq<Section>, pageYOffset: real)
    requires forall i :: 0 <= i < |sections| ==> !Reached(sections[i], pageYOffset)
    ensures ChosenId(sections, pageYOffset) == Some("")
    decreases |sections|
  {
    if |sections| > 0 {
      var init := sections[..|sections| - 1];
      assert !Reached(sections[|sections| - 1], pageYOffset);
      assert forall j :: 0 <= j < |init| ==> init[j] == sections[j];
      ChosenWhenNoneReached(init, pageYOffset);
    }
  }

  /** The colour a link ends with for a chosen id. */
  function LinkColor(href: string, chosen: Option<string>): Color
  {
    if Some(Fragment(href)) == chosen then Gold else White
  }

  /** The `sections.forEach` scan, in document order. */
  method ActiveSectionId(sections: seq<Section>, pageYOffset: real) returns (current: Option<string>)
    ensures current == ChosenId(sections, pageYOffset)
  {
    current := Some("");
    var i := 0;
    while i < |sections|
      invariant 0 <= i <= |sections|
      invariant current == ChosenId(sections[..i], pageYOffset)
    {
      if Reached(sections[i], pageYOffset) {
        current := sections[i].id;
      }
      assert sections[..i + 1][..i] == sections[..i];
      i := i + 1;
    }
    assert sections[..i] == sections;
  }

  /** The `navLinksItems.forEach` pass over the links' colours. */
  method ColorLinks(hrefs: seq<string>, current: Option<string>, colors: array<Color>)
    requires colors.Length == |hrefs|
    modifies colors
    ensures forall k :: 0 <= k < colors.Length ==> colors[k] == LinkColor(hrefs[k], current)
  {
    for i := 0 to colors.Length
      invariant forall k :: 0 <= k < i ==> colors[k] == LinkColor(hrefs[k], current)
    {
      colors[i] := White;
      if Some(Fragment(hrefs[i])) == current {
        colors[i] := Gold;
      }
    }
  }

  method HighlightNav(sections: seq<Section>, pageYOffset: real, hrefs: seq<string>, colors: array<Color>)
    requires colors.Length == |hrefs|
    modifies colors
    ensures forall k :: 0 <= k < colors.Length ==> colors[k] == LinkColor(hrefs[k], ChosenId(sections, pageYOffset))
  {
    var current := ActiveSectionId(sections, pageYOffset);
    ColorLinks(hrefs, current, colors);
  }

  /** A link is gold exactly when its fragment is the id of the last
      reached section. */
  lemma GoldIffLastReached(sections: seq<Section>, pageYOffset: real, href: string, i: nat)
    requires i < |sections| && Reached(sections[i], pageYOffset)
    requires forall j :: i < j < |sections| ==> !Reached(sections[j], pageYOffset)
    ensures LinkColor(href, ChosenId(sections, pageYOffset)) == Gold <==> sections[i].id == Some(Fragment(href))
  {
    ChosenIsLastReached(sections, pageYOffset, i);
  }

  /** When no section is reached, the only links coloured gold are those
      whose fragment is empty (an href of "#" or a single character). */
  lemma NoneReached(sections: seq<Section>, pageYOffset: real, href: string)
    requires forall i :: 0 <= i < |sections| ==> !Reached(sections[i], pageYOffset)
    ensures LinkColor(href, ChosenId(sections, pageYOffset)) == Gold <==> |href| <= 1
  {
    ChosenWhenNoneReached(sections, pageYOffset);
    assert |Fragment(href)| == if |href| == 0 then 0 else |href| - 1;
  }

  /** Links with pairwise distinct fragments: when link k is gold, every
      other link is white. */
  lemma OnlyOneGold(hrefs: seq<string>, chosen: Option<string>, k: nat)
    requires forall a, b :: 0 <= a < |hrefs| && 0 <= b < |hrefs| && a != b ==> Fragment(hrefs[a]) != Fragment(hrefs[b])
    requires k < |hrefs| && LinkColor(hrefs[k], chosen) == Gold
    ensures forall l :: 0 <= l < |hrefs| && l != k ==> LinkColor(hrefs[l], chosen) == White
  {
  }
}
