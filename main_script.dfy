/** js/main.js: the page-level handlers. The scroll handler toggles the
    shrunk navbar and the back-to-top button, the gallery filter shows the
    items of one category, the quick `#contactForm` handler lists the empty
    fields or rejects the email, and the showcase video switches to a second
    source once and keeps its play/pause icon in step with the player. */
module MainScript {
  import opened Text
  import opened Patterns

  // ---------------------------------------------------------------- scroll

  const NavbarShrink := "navbar-shrink"
  const Active := "active"

  /** Adds `c` when `on`, removes it otherwise. */
  function Toggled(classes: set<string>, c: string, on: bool): (r: set<string>)
    ensures c in r <==> on
    ensures r - {c} == classes - {c}
  {
    if on then classes + {c} else classes - {c}
  }

  /** `addClass(c)` / `removeClass(c)` on every element of a jQuery set. */
  method ToggleAll(elems: array<set<string>>, c: string, on: bool)
    modifies elems
    ensures forall k :: 0 <= k < elems.Length ==> elems[k] == Toggled(old(elems[k]), c, on)
  {
    var i := 0;
    while i < elems.Length
      invariant 0 <= i <= elems.Length
      invariant forall k :: 0 <= k < i ==> elems[k] == Toggled(old(elems[k]), c, on)
      invariant forall k :: i <= k < elems.Length ==> elems[k] == old(elems[k])
    {
      elems[i] := Toggled(elems[i], c, on);
      i := i + 1;
    }
  }

  // ---------------------------------------------------------------- gallery

  datatype FilterButton = FilterButton(filter: string, classes: set<string>)
  datatype GalleryItem = GalleryItem(classes: set<string>, visible: bool)

  /** Whether an item is shown once the filter `f` has been applied. */
  predicate ShownUnder(f: string, item: GalleryItem) {
    f == "all" || f in item.classes
  }

  // ---------------------------------------------------------------- page

  /** The class lists of the `.navbar` and `.back-to-top` elements, the
      `.gallery-filter-btn` buttons and the `.gallery-item` elements. */
  class Page {
    const navbars: array<set<string>>
    const backToTop: array<set<string>>
    const buttons: array<FilterButton>
    const items: array<GalleryItem>

    ghost predicate Valid()
      reads this
    {
      navbars != backToTop
    }

    constructor (navs: seq<set<string>>, tops: seq<set<string>>, btns: seq<FilterButton>, its: seq<GalleryItem>)
      ensures Valid()
      ensures navbars[..] == navs && backToTop[..] == tops && buttons[..] == btns && items[..] == its
      ensures fresh(navbars) && fresh(backToTop) && fresh(buttons) && fresh(items)
    {
      navbars := new set<string>[|navs|](i requires 0 <= i < |navs| => navs[i]);
      backToTop := new set<string>[|tops|](i requires 0 <= i < |tops| => tops[i]);
      buttons := new FilterButton[|btns|](i requires 0 <= i < |btns| => btns[i]);
      items := new GalleryItem[|its|](i requires 0 <= i < |its| => its[i]);
    }

    /** The window `scroll` handler: past 90 pixels (strictly) every navbar
        is shrunk and every back-to-top button active; at or above the
        threshold both classes are gone. Nothing else changes. */
    method OnScroll(scrollTop: real)
      requires Valid()
      modifies navbars, backToTop
      ensures forall k :: 0 <= k < navbars.Length ==>
        (NavbarShrink in navbars[k] <==> scrollTop > 90.0) && navbars[k] - {NavbarShrink} == old(navbars[k]) - {NavbarShrink}
      ensures forall k :: 0 <= k < backToTop.Length ==>
        (Active in backToTop[k] <==> scrollTop > 90.0) && backToTop[k] - {Active} == old(backToTop[k]) - {Active}
    {
      var shrink := scrollTop > 90.0;
      ToggleAll(navbars, NavbarShrink, shrink);
      ToggleAll(backToTop, Active, shrink);
    }

    /** The `.gallery-filter-btn` click handler for button `b`. Without a
        `data-filter` nothing changes. Otherwise `b` becomes the only active
        button and an item is visible iff the filter is `all` or names one
        of the item's classes. */
    method OnFilterClick(b: nat)
      requires b < buttons.Length
      modifies buttons, items
      ensures buttons[b].filter == "" ==> buttons[..] == old(buttons[..]) && items[..] == old(items[..])
      ensures old(buttons[b]).filter != "" ==>
        && (forall k :: 0 <= k < buttons.Length ==>
              (Active in buttons[k].classes <==> k == b)
              && buttons[k].classes - {Active} == old(buttons[k]).classes - {Active}
              && buttons[k].filter == old(buttons[k]).filter)
        && (forall k :: 0 <= k < items.Length ==>
              items[k].visible == ShownUnder(old(buttons[b]).filter, old(items[k]))
              && items[k].classes == old(items[k]).classes)
    {
      var filter := buttons[b].filter;
      if filter == "" {
        return;
      }
      var i := 0;
      while i < buttons.Length
        modifies buttons
        invariant 0 <= i <= buttons.Length
        invariant forall k :: 0 <= k < i ==> buttons[k] == old(buttons[k]).(classes := old(buttons[k]).classes - {Active})
        invariant forall k :: i <= k < buttons.Length ==> buttons[k] == old(buttons[k])
      {
        buttons[i] := buttons[i].(classes := buttons[i].classes - {Active});
        i := i + 1;
      }
      buttons[b] := buttons[b].(classes := buttons[b].classes + {Active});
      var j := 0;
      while j < items.Length
        modifies items
        invariant 0 <= j <= items.Length
        invariant forall k :: 0 <= k < j ==> items[k] == old(items[k]).(visible := ShownUnder(filter, old(items[k])))
        invariant forall k :: j <= k < items.Length ==> items[k] == old(items[k])
      {
        if filter == "all" {
          items[j] := items[j].(visible := true);
        } else if filter in items[j].classes {
          items[j] := items[j].(visible := true);
        } else {
          items[j] := items[j].(visible := false);
        }
        j := j + 1;
      }
    }
  }

  // ---------------------------------------------------------------- quick contact form

  /** The five values the quick handler reads; a field that is absent reads
      as "". */
  datatype QuickValues = QuickValues(name: string, email: string, phone: string, subject: string, message: string)

  /** `!value.trim()`: the field counts as not filled in. It is stated as
      "white space only", which BlankIffTrimEmpty shows is the same thing. */
  predicate Blank(value: string) {
    AllSpace(value)
  }

  lemma BlankIffTrimEmpty(value: string)
    ensures Blank(value) <==> Trim(value) == ""
  {
    TrimEmptyIffAllSpace(value);
  }

  /** The fields in the order the handler checks them: each label with
      whether its value is blank. */
  function Labelled(v: QuickValues): seq<(string, bool)> {
    [("Name", Blank(v.name)), ("Email", Blank(v.email)), ("Phone", Blank(v.phone)),
     ("Subject", Blank(v.subject)), ("Message", Blank(v.message))]
  }

  /** The labels, in order, of the blank entries. */
  function MissingFrom(entries: seq<(string, bool)>): (r: seq<string>)
    ensures |r| <= |entries|
  {
    if entries == [] then []
    else (if entries[0].1 then [entries[0].0] else []) + MissingFrom(entries[1..])
  }

  /** A label is listed iff one of its entries is blank. */
  lemma {:induction false} MissingMembership(entries: seq<(string, bool)>, l: string)
    ensures l in MissingFrom(entries) <==>
      exists i :: 0 <= i < |entries| && entries[i].0 == l && entries[i].1
  {
    if entries != [] {
      var rest := entries[1..];
      MissingMembership(rest, l);
      if exists i :: 0 <= i < |entries| && entries[i].0 == l && entries[i].1 {
        var i :| 0 <= i < |entries| && entries[i].0 == l && entries[i].1;
        if i > 0 {
          assert rest[i - 1] == entries[i];
        }
      }
      if exists j :: 0 <= j < |rest| && rest[j].0 == l && rest[j].1 {
        var j :| 0 <= j < |rest| && rest[j].0 == l && rest[j].1;
        assert entries[j + 1] == rest[j];
      }
    }
  }

  /** One `push`: the label when the trimmed value is empty. */
  function IfBlank(value: string, tag: string): seq<string> {
    if Blank(value) then [tag] else []
  }

  /** The five-field list, unfolded in form order. */
  lemma MissingUnfold(v: QuickValues)
    ensures MissingFrom(Labelled(v)) ==
      IfBlank(v.name, "Name") + (IfBlank(v.email, "Email") + (IfBlank(v.phone, "Phone") +
      (IfBlank(v.subject, "Subject") + IfBlank(v.message, "Message"))))
  {
    var a, b, c := ("Name", Blank(v.name)), ("Email", Blank(v.email)), ("Phone", Blank(v.phone));
    var d, e := ("Subject", Blank(v.subject)), ("Message", Blank(v.message));
    assert [a, b, c, d, e][1..] == [b, c, d, e];
    assert [b, c, d, e][1..] == [c, d, e];
    assert [c, d, e][1..] == [d, e];
    assert [d, e][1..] == [e];
    assert [e][1..] == [];
    assert MissingFrom([e]) == IfBlank(v.message, "Message");
    assert MissingFrom([d, e]) == IfBlank(v.subject, "Subject") + MissingFrom([e]);
    assert MissingFrom([c, d, e]) == IfBlank(v.phone, "Phone") + MissingFrom([d, e]);
    assert MissingFrom([b, c, d, e]) == IfBlank(v.email, "Email") + MissingFrom([c, d, e]);
    assert MissingFrom([a, b, c, d, e]) == IfBlank(v.name, "Name") + MissingFrom([b, c, d, e]);
    assert Labelled(v) == [a, b, c, d, e];
  }

  /** The `missingFields` array built by the five `push` calls: exactly the
      blank fields, in form order. */
  method CollectMissing(v: QuickValues) returns (missing: seq<string>)
    ensures missing == MissingFrom(Labelled(v))
  {
    missing := [];
    if Blank(v.name) { missing := missing + ["Name"]; }
    assert missing == IfBlank(v.name, "Name");
    if Blank(v.email) { missing := missing + ["Email"]; }
    assert missing == IfBlank(v.name, "Name") + IfBlank(v.email, "Email");
    if Blank(v.phone) { missing := missing + ["Phone"]; }
    assert missing == IfBlank(v.name, "Name") + IfBlank(v.email, "Email") + IfBlank(v.phone, "Phone");
    if Blank(v.subject) { missing := missing + ["Subject"]; }
    assert missing == IfBlank(v.name, "Name") + IfBlank(v.email, "Email") + IfBlank(v.phone, "Phone")
      + IfBlank(v.subject, "Subject");
    if Blank(v.message) { missing := missing + ["Message"]; }
    assert missing == IfBlank(v.name, "Name") + IfBlank(v.email, "Email") + IfBlank(v.phone, "Phone")
      + IfBlank(v.subject, "Subject") + IfBlank(v.message, "Message");
    MissingUnfold(v);
    Reassociate(IfBlank(v.name, "Name"), IfBlank(v.email, "Email"), IfBlank(v.phone, "Phone"),
      IfBlank(v.subject, "Subject"), IfBlank(v.message, "Message"));
  }

  lemma Reassociate(a: seq<string>, b: seq<string>, c: seq<string>, d: seq<string>, e: seq<string>)
    ensures a + b + c + d + e == a + (b + (c + (d + e)))
  {
  }

  /** A label is in the list iff its field is blank. */
  lemma MissingIffBlank(v: QuickValues, l: string)
    ensures l in MissingFrom(Labelled(v)) <==>
      || (l == "Name" && Blank(v.name))
      || (l == "Email" && Blank(v.email))
      || (l == "Phone" && Blank(v.phone))
      || (l == "Subject" && Blank(v.subject))
      || (l == "Message" && Blank(v.message))
  {
    var es := Labelled(v);
    MissingMembership(es, l);
    if l in MissingFrom(es) {
      var i :| 0 <= i < |es| && es[i].0 == l && es[i].1;
      assert i == 0 || i == 1 || i == 2 || i == 3 || i == 4;
    } else {
      assert !(exists i :: 0 <= i < |es| && es[i].0 == l && es[i].1);
      assert es[0].0 == "Name" && es[1].0 == "Email" && es[2].0 == "Phone" && es[3].0 == "Subject" && es[4].0 == "Message";
    }
  }

  /** Example: text that starts with a non-space character is not blank
      (a corollary of `TrimEmptyIffAllSpace`). */
  lemma NotBlank(s: string)
    requires |s| > 0 && !IsSpace(s[0])
    ensures Trim(s) != ""
  {
    TrimEmptyIffAllSpace(s);
  }

  const MissingPrefix := "Please fill in the following fields: "

  /** The three alerts of the quick handler. */
  datatype Alert = MissingAlert(fields: seq<string>) | InvalidEmailAlert | ThankYouAlert

  /** The text `alert` shows. */
  function AlertText(a: Alert): string {
    match a
    case MissingAlert(fields) => MissingPrefix + Join(fields, ", ")
    case InvalidEmailAlert => "Please enter a valid email address"
    case ThankYouAlert => "Thank you for your message! We will get back to you soon."
  }

  /** The alert the quick handler shows: the blank fields first, then the
      email pattern on the untrimmed value, then the thanks. */
  function QuickAlert(v: QuickValues): (a: Alert)
    ensures a.MissingAlert? <==> MissingFrom(Labelled(v)) != []
    ensures a.MissingAlert? ==> a.fields == MissingFrom(Labelled(v))
    ensures a == ThankYouAlert <==> MissingFrom(Labelled(v)) == [] && IsEmail(v.email)
  {
    var missing := MissingFrom(Labelled(v));
    if |missing| > 0 then MissingAlert(missing)
    else if !IsEmail(v.email) then InvalidEmailAlert
    else ThankYouAlert
  }

  /** Blank name and phone, everything else filled in: the alert lists
      exactly those two, in form order. */
  lemma {:induction false} BlankNameAndPhone(v: QuickValues)
    requires Blank(v.name) && Blank(v.phone)
    requires !Blank(v.email) && !Blank(v.subject) && !Blank(v.message)
    ensures QuickAlert(v) == MissingAlert(["Name", "Phone"])
  {
    MissingUnfold(v);
  }

  /** The message text for that case. */
  lemma NamePhoneText()
    ensures AlertText(MissingAlert(["Name", "Phone"])) == "Please fill in the following fields: Name, Phone"
  {
    var parts: seq<string> := ["Name", "Phone"];
    assert parts[1..] == ["Phone"];
    assert Join(parts, ", ") == "Name" + ", " + "Phone";
  }

  /** The quick handler tests the pattern on the untrimmed email: a filled-in
      form whose email starts with white space is always refused, though
      form-validation.js, which trims first, may accept the same address. */
  lemma {:induction false} LeadingSpaceEmailRefused(v: QuickValues)
    requires !Blank(v.name) && !Blank(v.email) && !Blank(v.phone) && !Blank(v.subject) && !Blank(v.message)
    requires |v.email| > 0 && IsSpace(v.email[0])
    ensures QuickAlert(v) == InvalidEmailAlert
  {
    MissingUnfold(v);
    if IsEmail(v.email) {
      EmailShape(v.email);
    }
  }

  /** The `#contactForm` fields as the quick handler sees them, and the
      values the form's `reset()` restores (each control's default value). */
  class QuickForm {
    var values: QuickValues
    const defaults: QuickValues

    constructor (v: QuickValues, defaults: QuickValues)
      ensures values == v && this.defaults == defaults
    {
      values := v;
      this.defaults := defaults;
    }

    /** The quick `submit` handler: returns the alert; only a form with no
        blank field and a matching email is accepted, and then every field
        gets its default value back. */
    method Submit() returns (alert: Alert)
      modifies this`values
      ensures alert == QuickAlert(old(values))
      ensures alert == ThankYouAlert ==> values == defaults
      ensures alert != ThankYouAlert ==> values == old(values)
    {
      var missing := CollectMissing(values);
      if |missing| > 0 {
        alert := MissingAlert(missing);
        return;
      }
      if !IsEmail(values.email) {
        alert := InvalidEmailAlert;
        return;
      }
      alert := ThankYouAlert;
      values := defaults;
    }
  }

  // ---------------------------------------------------------------- video

  const PrimaryVideo := "cj-provider-services.mp4"
  const FallbackVideo := "videos/family.mp4"

  datatype Icon = PlayIcon | PauseIcon

  /** What `video.play()` gave back when the button was clicked. */
  datatype PlayOutcome = Resolved | Rejected | NoPromise

  /** The fallback source does not name the primary one, so a failure of the
      fallback is reported instead of switching again. */
  lemma FallbackIsNotPrimary()
    ensures !Contains(FallbackVideo, PrimaryVideo)
  {
  }

  /** The `#showcase-video` element, its `.play-pause-btn` icon, the
      `.video-controls-overlay`, and the number of `.video-error` notices
      appended to its container. */
  class VideoPlayer {
    var src: string
    var currentSrc: string
    var paused: bool
    var icon: Icon
    var overlayVisible: bool
    var loading: bool
    const hasContainer: bool
    var errorNotices: nat

    /** The button always offers the action opposite to the player's state. */
    ghost predicate Valid()
      reads this
    {
      (icon == PauseIcon) == !paused
    }

    constructor (source: string, hasContainer: bool)
      ensures Valid() && src == source && currentSrc == source && paused && icon == PlayIcon
      ensures overlayVisible && !loading && this.hasContainer == hasContainer && errorNotices == 0
    {
      src := source;
      currentSrc := source;
      paused := true;
      icon := PlayIcon;
      overlayVisible := true;
      loading := false;
      this.hasContainer := hasContainer;
      errorNotices := 0;
    }

    /** The `error` listener. A failing primary source is replaced by the
        fallback and reloaded; any other failure appends one notice. After
        it the current source never names the primary one, so the switch
        happens at most once. `load()` pauses the element without firing
        `pause`, so the icon is not updated: a video that was playing is
        left paused behind the pause icon. */
    method OnError()
      modifies this
      ensures Contains(old(currentSrc), PrimaryVideo) ==>
        src == FallbackVideo && currentSrc == FallbackVideo && errorNotices == old(errorNotices) && paused
      ensures !Contains(old(currentSrc), PrimaryVideo) ==>
        src == old(src) && currentSrc == old(currentSrc) && paused == old(paused) &&
        errorNotices == old(errorNotices) + (if hasContainer then 1 else 0)
      ensures !Contains(currentSrc, PrimaryVideo)
      ensures Contains(old(currentSrc), PrimaryVideo) ==> (Valid() <==> icon == PlayIcon)
      ensures !Contains(old(currentSrc), PrimaryVideo) ==> (Valid() <==> old(Valid()))
      ensures icon == old(icon) && overlayVisible == old(overlayVisible) && loading == old(loading)
    {
      if currentSrc != "" && Contains(currentSrc, PrimaryVideo) {
        src := FallbackVideo;
        currentSrc := src;
        paused := true;
        FallbackIsNotPrimary();
      } else if hasContainer {
        errorNotices := errorNotices + 1;
      }
    }

    /** The `play` listeners: pause icon, overlay hidden. */
    method OnPlay()
      modifies this
      ensures Valid() && !paused && icon == PauseIcon && !overlayVisible
      ensures src == old(src) && currentSrc == old(currentSrc) && errorNotices == old(errorNotices) && loading == old(loading)
    {
      paused := false;
      icon := PauseIcon;
      overlayVisible := false;
    }

    /** The `pause` listeners: play icon, overlay shown. */
    method OnPause()
      modifies this
      ensures Valid() && paused && icon == PlayIcon && overlayVisible
      ensures src == old(src) && currentSrc == old(currentSrc) && errorNotices == old(errorNotices) && loading == old(loading)
    {
      paused := true;
      icon := PlayIcon;
      overlayVisible := true;
    }

    /** The `ended` listener: overlay shown, play icon. Playback that ends
        leaves the element paused. */
    method OnEnded()
      modifies this
      ensures Valid() && paused && icon == PlayIcon && overlayVisible
      ensures src == old(src) && currentSrc == old(currentSrc) && errorNotices == old(errorNotices) && loading == old(loading)
    {
      paused := true;
      overlayVisible := true;
      icon := PlayIcon;
    }

    /** The button's `click` listener, in any state. A paused video is played
        and the icon turns to pause unless the play promise is rejected; a
        playing video is paused and the icon turns to play. So a click puts
        the icon back in step with the player, even after `OnError` left it
        stale, unless the play is rejected. */
    method OnButtonClick(outcome: PlayOutcome)
      modifies this
      ensures Valid() <==> old(Valid()) || !old(paused) || outcome != Rejected
      ensures old(paused) && outcome != Rejected ==> !paused && icon == PauseIcon
      ensures old(paused) && outcome == Rejected ==> paused && icon == old(icon)
      ensures !old(paused) ==> paused && icon == PlayIcon
      ensures src == old(src) && currentSrc == old(currentSrc) && errorNotices == old(errorNotices)
      ensures overlayVisible == old(overlayVisible) && loading == old(loading)
    {
      if paused {
        if outcome != Rejected {
          paused := false;
          icon := PauseIcon;
        }
      } else {
        paused := true;
        icon := PlayIcon;
      }
    }

    /** `loadstart` adds the `loading` class, `canplay` removes it. */
    method OnLoadStart()
      modifies this`loading
      ensures loading
    {
      loading := true;
    }

    method OnCanPlay()
      modifies this`loading
      ensures !loading
    {
      loading := false;
    }
  }
}
