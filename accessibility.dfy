/** js/accessibility.js: attributes added once the document is ready. A skip
    link is prepended at most once, form controls are tied to their labels or
    fall back to their placeholder, service cards and social links get
    labels derived from their content, and Enter or Space activates the
    keyboard-focusable links. */
module Accessibility {
  import opened Text
  import opened Dom

  // ---------------------------------------------------------------- skip link

  const SkipLinkClass := "skip-link"
  const SkipLink := Element("a", map["href" := "#main-content"], {SkipLinkClass}, "Skip to main content")

  function SkipLinks(elems: seq<Element>): (n: nat)
    ensures n <= |elems|
    ensures n == 0 <==> forall k :: 0 <= k < |elems| ==> SkipLinkClass !in elems[k].classes
  {
    if elems == [] then 0
    else (if SkipLinkClass in elems[0].classes then 1 else 0) + SkipLinks(elems[1..])
  }

  /** The skip-link block: with a body and no `.skip-link` anywhere, the
      link is prepended; otherwise the document is left alone. */
  function AddSkipLink(hasBody: bool, elems: seq<Element>): (r: seq<Element>)
    ensures hasBody && SkipLinks(elems) == 0 ==> r == [SkipLink] + elems
    ensures !hasBody || SkipLinks(elems) > 0 ==> r == elems
  {
    if hasBody && SkipLinks(elems) == 0 then [SkipLink] + elems else elems
  }

  /** At most one skip link is ever added, so running the block again adds
      nothing: a page with a body ends up with at least one skip link, and
      with exactly one if it had none. */
  lemma {:induction false} SkipLinkAtMostOnce(hasBody: bool, elems: seq<Element>)
    ensures AddSkipLink(hasBody, AddSkipLink(hasBody, elems)) == AddSkipLink(hasBody, elems)
    ensures SkipLinks(AddSkipLink(hasBody, elems)) == if hasBody && SkipLinks(elems) == 0 then 1 else SkipLinks(elems)
  {
    if hasBody && SkipLinks(elems) == 0 {
      var r := [SkipLink] + elems;
      assert r[1..] == elems;
      assert SkipLinks(r) == 1;
    }
  }

  // ---------------------------------------------------------------- form controls

  const AriaLabel := "aria-label"
  const AriaLabelledBy := "aria-labelledby"

  /** The control has neither `aria-label` nor `aria-labelledby`. */
  predicate Unlabelled(c: Element) {
    Attr(c.attrs, AriaLabel) == "" && Attr(c.attrs, AriaLabelledBy) == ""
  }

  /** Some `label[for=id]` exists among `labels`. */
  predicate HasLabelFor(labels: seq<Element>, id: string) {
    exists j :: 0 <= j < |labels| && Attr(labels[j].attrs, "for") == id
  }

  /** One control after the labelling pass: an unlabelled control with an id
      and a matching label is labelled by `id-label`; otherwise an
      unlabelled control takes its placeholder, if any, as `aria-label`. */
  function LabelControl(c: Element, hasLabel: bool): (r: Element)
    ensures r.tag == c.tag && r.classes == c.classes && r.text == c.text
    ensures !Unlabelled(c) ==> r == c
    ensures Unlabelled(c) && Attr(c.attrs, "id") != "" && hasLabel ==>
      Attr(r.attrs, AriaLabelledBy) == Attr(c.attrs, "id") + "-label" && Attr(r.attrs, AriaLabel) == ""
    ensures Unlabelled(c) && !(Attr(c.attrs, "id") != "" && hasLabel) ==>
      Attr(r.attrs, AriaLabel) == Attr(c.attrs, "placeholder") && Attr(r.attrs, AriaLabelledBy) == ""
    ensures forall k :: k != AriaLabel && k != AriaLabelledBy ==> Attr(r.attrs, k) == Attr(c.attrs, k)
  {
    if !Unlabelled(c) then c
    else
      var id := Attr(c.attrs, "id");
      var linked := if id != "" && hasLabel then SetAttr(c, AriaLabelledBy, id + "-label") else c;
      var placeholder := Attr(linked.attrs, "placeholder");
      if Unlabelled(linked) && placeholder != "" then SetAttr(linked, AriaLabel, placeholder) else linked
  }

  /** After the pass a control is labelled iff it already was, or it has an
      id with a matching label, or it has a placeholder; and a second pass
      changes nothing. */
  lemma LabelControlOutcome(c: Element, hasLabel: bool)
    ensures !Unlabelled(LabelControl(c, hasLabel)) <==>
      !Unlabelled(c) || (Attr(c.attrs, "id") != "" && hasLabel) || Attr(c.attrs, "placeholder") != ""
    ensures LabelControl(LabelControl(c, hasLabel), hasLabel) == LabelControl(c, hasLabel)
  {
  }

  /** Some unlabelled control has id `f`, so the labels `for` it are
      renamed. */
  predicate Claimed(controls: seq<Element>, f: string) {
    f != "" && exists i :: 0 <= i < |controls| && Unlabelled(controls[i]) && Attr(controls[i].attrs, "id") == f
  }

  /** A `label` after the pass: renamed `for-label` when claimed. */
  function RenameLabel(l: Element, claimed: bool): (r: Element)
    ensures claimed ==> Attr(r.attrs, "id") == Attr(l.attrs, "for") + "-label"
    ensures !claimed ==> r == l
    ensures forall k :: k != "id" ==> Attr(r.attrs, k) == Attr(l.attrs, k)
  {
    if claimed then SetAttr(l, "id", Attr(l.attrs, "for") + "-label") else l
  }

  /** The form controls (`input, textarea, select`) and the `label`
      elements, in document order. */
  class Form {
    const controls: array<Element>
    const labels: array<Element>

    constructor (cs: seq<Element>, ls: seq<Element>)
      ensures controls[..] == cs && labels[..] == ls && fresh(controls) && fresh(labels)
      ensures controls != labels
    {
      controls := new Element[|cs|](i requires 0 <= i < |cs| => cs[i]);
      labels := new Element[|ls|](i requires 0 <= i < |ls| => ls[i]);
    }

    /** Renames every label `for` the given id; reports whether one exists. */
    method RenameLabelsFor(id: string) returns (found: bool)
      requires id != ""
      modifies labels
      ensures found <==> HasLabelFor(old(labels[..]), id)
      ensures forall j :: 0 <= j < labels.Length ==>
        labels[j] == if Attr(old(labels[j]).attrs, "for") == id then RenameLabel(old(labels[j]), true) else old(labels[j])
    {
      found := false;
      var j := 0;
      while j < labels.Length
        invariant 0 <= j <= labels.Length
        invariant found <==> HasLabelFor(old(labels[..])[..j], id)
        invariant forall k :: 0 <= k < j ==>
          labels[k] == if Attr(old(labels[k]).attrs, "for") == id then RenameLabel(old(labels[k]), true) else old(labels[k])
        invariant forall k :: j <= k < labels.Length ==> labels[k] == old(labels[k])
      {
        if Attr(labels[j].attrs, "for") == id {
          labels[j] := SetAttr(labels[j], "id", id + "-label");
          found := true;
          assert old(labels[..])[..j + 1][j] == old(labels[j]);
        }
        assert forall k :: 0 <= k < j ==> old(labels[..])[..j + 1][k] == old(labels[..])[..j][k];
        j := j + 1;
      }
      assert old(labels[..])[..j] == old(labels[..]);
    }

    /** One iteration of the `.each` over the form controls, for control
        `i`. */
    method LabelOne(i: nat)
      requires i < controls.Length && controls != labels
      modifies controls, labels
      ensures controls[i] == LabelControl(old(controls[i]), HasLabelFor(old(labels[..]), Attr(old(controls[i]).attrs, "id")))
      ensures forall k :: 0 <= k < controls.Length && k != i ==> controls[k] == old(controls[k])
      ensures forall j :: 0 <= j < labels.Length ==>
        labels[j] == RenameLabel(old(labels[j]), ClaimedBy(old(controls[i]), Attr(old(labels[j]).attrs, "for")))
    {
      var c := controls[i];
      if Unlabelled(c) {
        var id := Attr(c.attrs, "id");
        var found := false;
        if id != "" {
          found := RenameLabelsFor(id);
        }
        if id != "" && found {
          c := SetAttr(c, AriaLabelledBy, id + "-label");
        }
        var placeholder := Attr(c.attrs, "placeholder");
        if Unlabelled(c) && placeholder != "" {
          c := SetAttr(c, AriaLabel, placeholder);
        }
        controls[i] := c;
      }
    }

    /** The `.each` over the form controls. */
    method LabelControls()
      requires controls != labels
      modifies controls, labels
      ensures forall i :: 0 <= i < controls.Length ==>
        controls[i] == LabelControl(old(controls[i]), HasLabelFor(old(labels[..]), Attr(old(controls[i]).attrs, "id")))
      ensures forall j :: 0 <= j < labels.Length ==>
        labels[j] == RenameLabel(old(labels[j]), Claimed(old(controls[..]), Attr(old(labels[j]).attrs, "for")))
    {
      ghost var cs := controls[..];
      ghost var ls := labels[..];
      var i := 0;
      while i < controls.Length
        invariant 0 <= i <= controls.Length
        invariant forall k :: 0 <= k < i ==> controls[k] == LabelControl(cs[k], HasLabelFor(ls, Attr(cs[k].attrs, "id")))
        invariant forall k :: i <= k < controls.Length ==> controls[k] == cs[k]
        invariant forall j :: 0 <= j < labels.Length ==>
          labels[j] == RenameLabel(ls[j], Claimed(cs[..i], Attr(ls[j].attrs, "for")))
      {
        ghost var before := labels[..];
        SameFors(before, ls, Attr(cs[i].attrs, "id"));
        LabelOne(i);
        forall j | 0 <= j < labels.Length
          ensures labels[j] == RenameLabel(ls[j], Claimed(cs[..i + 1], Attr(ls[j].attrs, "for")))
        {
          var f := Attr(ls[j].attrs, "for");
          ClaimedStep(cs, i, f);
          RenameCompose(ls[j], Claimed(cs[..i], f), ClaimedBy(cs[i], f));
        }
        i := i + 1;
      }
      assert cs[..i] == cs;
    }
  }

  /** Control `c` is unlabelled and has the non-empty id `f`. */
  predicate ClaimedBy(c: Element, f: string) {
    f != "" && Unlabelled(c) && Attr(c.attrs, "id") == f
  }

  /** Renaming twice is renaming once, since the `for` attribute the new id
      is built from does not change. */
  lemma RenameCompose(l: Element, a: bool, b: bool)
    ensures RenameLabel(RenameLabel(l, a), b) == RenameLabel(l, a || b)
  {
    if a && b {
      var f := Attr(l.attrs, "for");
      assert l.attrs["id" := f + "-label"]["id" := f + "-label"] == l.attrs["id" := f + "-label"];
    }
  }

  /** Labels with the same `for` attributes have the same matches. */
  lemma SameFors(a: seq<Element>, b: seq<Element>, id: string)
    requires |a| == |b| && forall j :: 0 <= j < |a| ==> Attr(a[j].attrs, "for") == Attr(b[j].attrs, "for")
    ensures HasLabelFor(a, id) <==> HasLabelFor(b, id)
  {
    if HasLabelFor(a, id) {
      var j :| 0 <= j < |a| && Attr(a[j].attrs, "for") == id;
      assert Attr(b[j].attrs, "for") == id;
    }
    if HasLabelFor(b, id) {
      var j :| 0 <= j < |b| && Attr(b[j].attrs, "for") == id;
      assert Attr(a[j].attrs, "for") == id;
    }
  }

  /** Extending the scanned prefix by control `i` claims `f` iff it was
      claimed already or control `i` claims it. */
  lemma ClaimedStep(cs: seq<Element>, i: nat, f: string)
    requires i < |cs|
    ensures Claimed(cs[..i + 1], f) <==> Claimed(cs[..i], f) || ClaimedBy(cs[i], f)
  {
    if Claimed(cs[..i + 1], f) {
      var k :| 0 <= k < i + 1 && Unlabelled(cs[..i + 1][k]) && Attr(cs[..i + 1][k].attrs, "id") == f;
      if k < i {
        assert cs[..i][k] == cs[..i + 1][k];
      }
    }
    if Claimed(cs[..i], f) {
      var k :| 0 <= k < i && Unlabelled(cs[..i][k]) && Attr(cs[..i][k].attrs, "id") == f;
      assert cs[..i + 1][k] == cs[..i][k];
    }
    if ClaimedBy(cs[i], f) {
      assert cs[..i + 1][i] == cs[i];
    }
  }

  // ---------------------------------------------------------------- service cards

  const ServiceSuffix := " service information"

  /** The text in front of the suffix: jQuery's `.text()` of all `h3`
      descendants (their texts concatenated), trimmed; `Service` when the
      card has no `h3`. */
  function CardHeading(headings: seq<string>): (t: string)
    ensures headings == [] ==> t == "Service"
    ensures headings != [] ==> t == Trim(Concat(headings))
    ensures t == [] || (!IsSpace(t[0]) && !IsSpace(t[|t| - 1]))
  {
    if headings == [] then "Service" else Trim(Concat(headings))
  }

  /** A service card's `aria-label`. */
  function CardLabel(headings: seq<string>): (r: string)
    ensures EndsWith(r, ServiceSuffix)
    ensures r[..|r| - |ServiceSuffix|] == CardHeading(headings)
  {
    var h := CardHeading(headings);
    assert (h + ServiceSuffix)[..|h|] == h;
    h + ServiceSuffix
  }

  /** A card whose headings are white space only gets a label that starts
      with the suffix's space: the trimmed text is empty, not `Service`. */
  lemma BlankHeadingIsNotService(headings: seq<string>)
    requires headings != [] && AllSpace(Concat(headings))
    ensures CardLabel(headings) == ServiceSuffix
  {
    TrimEmptyIffAllSpace(Concat(headings));
  }

  /** A card without an `h3` is labelled as a generic service. */
  lemma NoHeadingIsService()
    ensures CardLabel([]) == "Service service information"
  {
  }

  /** White space around a single heading does not reach the label. */
  lemma {:induction false} CardLabelIgnoresPadding(pad: string, h: string, pad2: string)
    requires AllSpace(pad) && AllSpace(pad2)
    requires h == [] || (!IsSpace(h[0]) && !IsSpace(h[|h| - 1]))
    ensures CardLabel([pad + h + pad2]) == h + ServiceSuffix
  {
    var x := pad + h + pad2;
    assert [x][1..] == [];
    assert Concat([x]) == x;
    TrimPadded(pad, h, pad2);
  }

  /** A `.service-card`: its attributes and the texts of its `h3`
      descendants. */
  datatype Card = Card(attrs: map<string, string>, headings: seq<string>)

  /** One card after the loop. */
  function LabelCard(card: Card): Card {
    card.(attrs := card.attrs["role" := "region"][AriaLabel := CardLabel(card.headings)])
  }

  /** A labelled card has role `region` and the derived label; its headings
      and every other attribute are unchanged. */
  lemma LabelCardAttributes(card: Card)
    ensures LabelCard(card).headings == card.headings
    ensures Attr(LabelCard(card).attrs, "role") == "region"
    ensures Attr(LabelCard(card).attrs, AriaLabel) == CardLabel(card.headings)
    ensures forall k :: k != "role" && k != AriaLabel ==> Attr(LabelCard(card).attrs, k) == Attr(card.attrs, k)
  {
  }

  /** The loop body for card `i`. */
  method LabelCardAt(cards: array<Card>, i: nat)
    requires i < cards.Length
    modifies cards
    ensures cards[i] == LabelCard(old(cards[i]))
    ensures forall j :: 0 <= j < cards.Length && j != i ==> cards[j] == old(cards[j])
  {
    var card := cards[i];
    var text := CardLabel(card.headings);
    cards[i] := card.(attrs := card.attrs["role" := "region"][AriaLabel := text]);
  }

  /** The `.service-card` loop. */
  method LabelCards(cards: array<Card>)
    modifies cards
    ensures forall i :: 0 <= i < cards.Length ==> cards[i] == LabelCard(old(cards[i]))
  {
    var i := 0;
    while i < cards.Length
      invariant 0 <= i <= cards.Length
      invariant forall j :: 0 <= j < i ==> cards[j] == LabelCard(old(cards[j]))
      invariant forall j :: i <= j < cards.Length ==> cards[j] == old(cards[j])
    {
      LabelCardAt(cards, i);
      i := i + 1;
    }
  }

  // ---------------------------------------------------------------- social links

  /** A character of the class `[a-z-]`. */
  predicate FaChar(c: char) {
    ('a' <= c <= 'z') || c == '-'
  }

  /** `fa-` followed by at least one `[a-z-]` starts at `p`. */
  predicate MatchAt(s: string, p: nat) {
    p + 4 <= |s| && s[p] == 'f' && s[p + 1] == 'a' && s[p + 2] == '-' && FaChar(s[p + 3])
  }

  /** Length of the longest `[a-z-]` run starting at `i`. */
  function RunFrom(s: string, i: nat): (n: nat)
    requires i <= |s|
    ensures i + n <= |s|
    ensures forall k :: i <= k < i + n ==> FaChar(s[k])
    ensures i + n == |s| || !FaChar(s[i + n])
    decreases |s| - i
  {
    if i < |s| && FaChar(s[i]) then 1 + RunFrom(s, i + 1) else 0
  }

  /** The leftmost match position at or after `from`. */
  function FirstMatchFrom(s: string, from: nat): (r: Option<nat>)
    requires from <= |s|
    ensures r.Some? ==> from <= r.value && MatchAt(s, r.value)
    ensures r.Some? ==> forall q: nat :: from <= q < r.value ==> !MatchAt(s, q)
    ensures r.None? ==> forall q: nat :: from <= q ==> !MatchAt(s, q)
    decreases |s| - from
  {
    if from + 4 > |s| then None
    else if MatchAt(s, from) then Some(from)
    else FirstMatchFrom(s, from + 1)
  }

  /** `iconClass.match(/fa-([a-z-]+)/)[1]`: the greedy `[a-z-]` run after
      the leftmost `fa-` that is followed by one, or None without a match. */
  function FaCapture(s: string): (r: Option<string>)
    ensures r.None? <==> forall q: nat :: !MatchAt(s, q)
    ensures r.Some? ==> exists p: nat ::
      && MatchAt(s, p) && (forall q: nat :: q < p ==> !MatchAt(s, q))
      && p + 3 + |r.value| <= |s| && r.value == s[p + 3..p + 3 + |r.value|]
      && (p + 3 + |r.value| == |s| || !FaChar(s[p + 3 + |r.value|]))
    ensures r.Some? ==> |r.value| > 0 && forall k :: 0 <= k < |r.value| ==> FaChar(r.value[k])
  {
    match FirstMatchFrom(s, 0)
    case None => None
    case Some(p) =>
      var n := RunFrom(s, p + 3);
      var c := s[p + 3..p + 3 + n];
      assert forall k :: 0 <= k < n ==> c[k] == s[p + 3 + k];
      Some(c)
  }

  /** The platform name: the capture with its first `-` turned into a space,
      or `social media` without one (also when the link has no icon or the
      icon no class, both of which read as ""). */
  function Platform(iconClass: string): (r: string)
    ensures FaCapture(iconClass).None? ==> r == "social media"
    ensures FaCapture(iconClass).Some? ==> r == ReplaceFirst(FaCapture(iconClass).value, '-', ' ')
  {
    match FaCapture(iconClass)
    case None => "social media"
    case Some(c) => ReplaceFirst(c, '-', ' ')
  }

  /** A social link's `aria-label`. */
  function SocialLabel(iconClass: string): (r: string)
    ensures r == "Visit our " + Platform(iconClass) + " page"
  {
    "Visit our " + Platform(iconClass) + " page"
  }

  /** A capture turns into the platform name `social media` only when it is
      `social-media`. */
  lemma {:induction false} DefaultPlatformCapture(c: string, name: string, capture: string)
    requires name == "social media" && capture == "social-media"
    requires forall k :: 0 <= k < |c| ==> FaChar(c[k])
    ensures ReplaceFirst(c, '-', ' ') == name <==> c == capture
  {
    var r := ReplaceFirst(c, '-', ' ');
    if r == name {
      assert r[6] == ' ' && !FaChar(' ');
      if '-' in c {
        var i := IndexOf(c, '-');
        assert forall k :: 0 <= k < |c| && k != i ==> r[k] == c[k];
        assert i == 6;
      }
    }
  }

  /** The label's fixed words around the platform name. */
  lemma LabelMiddle(p: string, name: string, text: string)
    requires name == "social media" && text == "Visit our social media page"
    ensures "Visit our " + p + " page" == text <==> p == name
  {
    var x := "Visit our " + p + " page";
    if x == text {
      assert p == x[10..|x| - 5];
    }
  }

  /** The label names the default platform exactly when the icon class has
      no `fa-` match, or when its capture is `social-media`: that class and a
      missing icon give the same label. */
  lemma SocialMediaLabel(iconClass: string)
    ensures SocialLabel(iconClass) == "Visit our social media page" <==>
      FaCapture(iconClass).None? || FaCapture(iconClass).value == "social-media"
  {
    LabelMiddle(Platform(iconClass), "social media", "Visit our social media page");
    if FaCapture(iconClass).Some? {
      DefaultPlatformCapture(FaCapture(iconClass).value, "social media", "social-media");
    }
  }

  /** Only the first `-` of the capture becomes a space: any later one stays
      in the platform name. */
  lemma {:induction false} LaterDashesKept(c: string)
    requires '-' in c
    requires '-' in c[IndexOf(c, '-') + 1..]
    ensures '-' in ReplaceFirst(c, '-', ' ')
  {
    var i := IndexOf(c, '-');
    var r := ReplaceFirst(c, '-', ' ');
    var j :| 0 <= j < |c[i + 1..]| && c[i + 1..][j] == '-';
    assert r[i + 1 + j] == c[i + 1 + j];
  }

  /** The usual Font Awesome brand class: `fab` does not match, the
      leftmost match is `fa-facebook-f`, and its capture is the whole run. */
  lemma FacebookCapture(s: string)
    requires s == "fab fa-facebook-f"
    ensures FaCapture(s) == Some("facebook-f")
  {
    assert !MatchAt(s, 0) && !MatchAt(s, 1) && !MatchAt(s, 2) && !MatchAt(s, 3) && MatchAt(s, 4);
    assert FirstMatchFrom(s, 4) == Some(4);
    assert FirstMatchFrom(s, 0) == Some(4);
    assert RunFrom(s, 17) == 0;
    assert RunFrom(s, 7) == 10;
    assert s[7..17] == "facebook-f";
  }

  /** The platform name of a capture whose first dash is at index `i`: the
      text before it, a space, and the rest unchanged. */
  lemma DashToSpace(c: string, i: nat)
    requires i < |c| && c[i] == '-' && '-' !in c[..i]
    ensures ReplaceFirst(c, '-', ' ') == c[..i] + " " + c[i + 1..]
  {
    assert forall k :: 0 <= k < i ==> c[k] == c[..i][k];
  }

  /** The capture stops at the first character outside `[a-z-]`: a dash and
      space separated icon class is read up to the space. */
  lemma CaptureStopsAtSpace(s: string, p: nat)
    requires MatchAt(s, p) && forall q: nat :: q < p ==> !MatchAt(s, q)
    ensures FaCapture(s).Some?
    ensures ' ' !in FaCapture(s).value
  {
    assert !FaChar(' ');
  }

  /** A `.social-links a`: its attributes and the `class` attribute of its
      first `i` descendant, None when it has no icon ("" when the icon has no
      class). */
  datatype SocialLink = SocialLink(attrs: map<string, string>, icon: Option<string>)

  /** The class text the label is derived from: a link without an icon reads
      as an icon without a class. */
  function IconClass(link: SocialLink): string {
    match link.icon
    case None => ""
    case Some(c) => c
  }

  /** One link after the loop: its `aria-label` is set, nothing else
      changes. */
  function LabelSocialLink(link: SocialLink): SocialLink {
    link.(attrs := link.attrs[AriaLabel := SocialLabel(IconClass(link))])
  }

  /** A link without an icon is labelled with the default platform. */
  lemma NoIconIsSocialMedia(link: SocialLink)
    requires link.icon.None?
    ensures Attr(LabelSocialLink(link).attrs, AriaLabel) == "Visit our social media page"
  {
    assert FaCapture("").None? by {
      assert forall q: nat :: !MatchAt("", q);
    }
  }

  /** The loop body for link `i`. */
  method LabelSocialLinkAt(links: array<SocialLink>, i: nat)
    requires i < links.Length
    modifies links
    ensures links[i] == LabelSocialLink(old(links[i]))
    ensures forall j :: 0 <= j < links.Length && j != i ==> links[j] == old(links[j])
  {
    var link := links[i];
    var platform := "social media";
    if link.icon.Some? {
      var iconClass := link.icon.value;
      if iconClass != "" {
        var capture := FaCapture(iconClass);
        if capture.Some? && capture.value != "" {
          platform := ReplaceFirst(capture.value, '-', ' ');
        }
      }
    }
    links[i] := link.(attrs := link.attrs[AriaLabel := "Visit our " + platform + " page"]);
  }

  /** The `.social-links a` loop: every link gets the label its icon class
      names, and keeps every other attribute. */
  method LabelSocialLinks(links: array<SocialLink>)
    modifies links
    ensures forall i :: 0 <= i < links.Length ==> links[i] == LabelSocialLink(old(links[i]))
    ensures forall i, k :: 0 <= i < links.Length && k != AriaLabel ==>
      Attr(links[i].attrs, k) == Attr(old(links[i]).attrs, k)
  {
    var i := 0;
    while i < links.Length
      invariant 0 <= i <= links.Length
      invariant forall j :: 0 <= j < i ==> links[j] == LabelSocialLink(old(links[j]))
      invariant forall j :: i <= j < links.Length ==> links[j] == old(links[j])
    {
      LabelSocialLinkAt(links, i);
      i := i + 1;
    }
  }

  // ---------------------------------------------------------------- keyboard

  /** What a `keydown` on a gallery link or the back-to-top button does. */
  datatype KeyResult = KeyResult(prevented: bool, clicked: bool)

  /** The keydown handler: Enter and Space both cancel the default and click
      the element; every other key is left to the browser. */
  function Keydown(key: string): (r: KeyResult)
    ensures r.clicked <==> key == "Enter" || key == " "
    ensures r.prevented == r.clicked
  {
    if key == "Enter" || key == " " then KeyResult(true, true) else KeyResult(false, false)
  }
}
