/** js/lazy-loading.js: eager preload of the first gallery images, a snapshot
    of the remaining `data-src` images resolved either by intersection events
    or by a viewport test on scroll, a one-pass conversion of plain images
    into placeholders, and a guarded error fallback. */
module LazyLoading {
  import opened Text
  import opened Dom

  /** Images inside the first three `.gallery-item`s are loaded at once. */
  const PreloadedGalleryItems := 3

  const LazyLoadClass := "lazy-load"

  const DataImage := "data:image"

  /** The grey SVG data URL that conversion puts into `src`. */
  const Placeholder := DataImage + "/svg+xml,%3Csvg xmlns='http://www.w3.org/2000/svg' width='100' height='100'%3E%3Crect width='100' height='100' fill='%23f0f0f0'/%3E%3C/svg%3E"

  // ---------------------------------------------------------------------
  // Preload of critical images

  /** Matched by `.gallery-item:lt(3) img[data-src]` and with a non-empty
      `data-src`. */
  predicate Preloadable(img: Image) {
    && img.galleryItem.Some? && img.galleryItem.value < PreloadedGalleryItems
    && HasDataSrcAttr(img) && DataSrc(img) != ""
  }

  /** What the preload pass does to one image. */
  function Preload(img: Image): (r: Image)
    ensures Preloadable(img) ==> Src(r) == DataSrc(img) && r.classes == img.classes + {Loaded}
    ensures Preloadable(img) ==> forall k :: k != "src" ==> Attr(r.attrs, k) == Attr(img.attrs, k)
    ensures !Preloadable(img) ==> r == img
    ensures r.galleryItem == img.galleryItem && r.offsetTop == img.offsetTop
  {
    if Preloadable(img) then WithClass(WithAttr(img, "src", DataSrc(img)), Loaded) else img
  }

  function PreloadAll(page: seq<Image>): (r: seq<Image>)
    ensures |r| == |page| && forall i :: 0 <= i < |page| ==> r[i] == Preload(page[i])
  {
    seq(|page|, i requires 0 <= i < |page| => Preload(page[i]))
  }

  /** How many images the preload pass loads. */
  function PreloadCount(page: seq<Image>): nat {
    if page == [] then 0
    else PreloadCount(page[..|page| - 1]) + (if Preloadable(page[|page| - 1]) then 1 else 0)
  }

  // ---------------------------------------------------------------------
  // The snapshot `img[data-src]:not(.loaded)`

  /** Matched by `img[data-src]:not(.loaded)`. */
  predicate Pending(img: Image) {
    HasDataSrcAttr(img) && Loaded !in img.classes
  }

  /** Indices, in document order, of the pending images at or after `k`. */
  function PendingFrom(page: seq<Image>, k: nat): (r: seq<nat>)
    requires k <= |page|
    decreases |page| - k
    ensures forall i :: i in r <==> k <= i < |page| && Pending(page[i])
    ensures forall a, b :: 0 <= a < b < |r| ==> r[a] < r[b]
  {
    if k == |page| then []
    else if Pending(page[k]) then
      var rest := PendingFrom(page, k + 1);
      assert forall a :: 0 <= a < |rest| ==> rest[a] in rest;
      [k] + rest
    else PendingFrom(page, k + 1)
  }

  function Snapshot(page: seq<Image>): (r: seq<nat>)
    ensures forall i :: i in r ==> i < |page|
  {
    PendingFrom(page, 0)
  }

  /** A pending image is either loaded by the preload pass or enters the
      snapshot that is taken after it, never both and never neither. */
  lemma EagerXorObserved(page: seq<Image>, i: nat)
    requires i < |page| && Pending(page[i])
    ensures Preloadable(page[i]) <==> i !in Snapshot(PreloadAll(page))
  {
    assert PreloadAll(page)[i] == Preload(page[i]);
  }

  // ---------------------------------------------------------------------
  // Resolution, by intersection or by the viewport test

  /** `image.dataset.src` is truthy. */
  predicate Resolvable(img: Image) {
    DataSrc(img) != ""
  }

  /** One resolution: with a non-empty `data-src`, `src` takes it, `srcset`
      takes `data-srcset` when that is non-empty, and `loaded` is added;
      otherwise nothing changes. */
  function Resolve(img: Image): (r: Image)
    ensures Resolvable(img) ==> Src(r) == DataSrc(img) && r.classes == img.classes + {Loaded}
    ensures Resolvable(img) && Attr(img.attrs, "data-srcset") != "" ==>
      Attr(r.attrs, "srcset") == Attr(img.attrs, "data-srcset")
    ensures Resolvable(img) ==>
      forall k :: k != "src" && (k != "srcset" || Attr(img.attrs, "data-srcset") == "") ==>
        Attr(r.attrs, k) == Attr(img.attrs, k)
    ensures !Resolvable(img) ==> r == img
    ensures DataSrc(r) == DataSrc(img) && HasDataSrcAttr(r) == HasDataSrcAttr(img)
    ensures r.offsetTop == img.offsetTop && r.galleryItem == img.galleryItem
  {
    if !Resolvable(img) then img
    else
      var withSrc := WithAttr(img, "src", DataSrc(img));
      var dataSrcset := Attr(img.attrs, "data-srcset");
      var withSet := if dataSrcset != "" then WithAttr(withSrc, "srcset", dataSrcset) else withSrc;
      WithClass(withSet, Loaded)
  }

  /** Resolving an image that is already resolved writes the same values. */
  lemma ResolveIdempotent(img: Image)
    ensures Resolve(Resolve(img)) == Resolve(img)
  {
    if Resolvable(img) {
      var r := Resolve(img);
      var dataSrcset := Attr(img.attrs, "data-srcset");
      assert Attr(r.attrs, "data-srcset") == dataSrcset;
      var rr := Resolve(r);
      assert rr.attrs == r.attrs;
    }
  }

  /** The fallback path's viewport test: `offsetTop < innerHeight + scrollTop`. */
  predicate InViewport(img: Image, innerHeight: int, scrollTop: real) {
    (img.offsetTop as real) < (innerHeight as real) + scrollTop
  }

  /** One run of the debounced fallback body over the snapshot `lazy`. */
  function FallbackPass(page: seq<Image>, lazy: seq<nat>, innerHeight: int, scrollTop: real): (r: seq<Image>)
    ensures |r| == |page|
    ensures forall i :: 0 <= i < |page| ==>
      r[i] == if i in lazy && InViewport(page[i], innerHeight, scrollTop) then Resolve(page[i]) else page[i]
  {
    seq(|page|, i requires 0 <= i < |page| =>
      if i in lazy && InViewport(page[i], innerHeight, scrollTop) then Resolve(page[i]) else page[i])
  }

  /** Re-running the fallback body at the same scroll position changes nothing. */
  lemma FallbackPassIdempotent(page: seq<Image>, lazy: seq<nat>, innerHeight: int, scrollTop: real)
    ensures FallbackPass(FallbackPass(page, lazy, innerHeight, scrollTop), lazy, innerHeight, scrollTop)
         == FallbackPass(page, lazy, innerHeight, scrollTop)
  {
    var once := FallbackPass(page, lazy, innerHeight, scrollTop);
    var twice := FallbackPass(once, lazy, innerHeight, scrollTop);
    forall i | 0 <= i < |page| ensures twice[i] == once[i] {
      if i in lazy && InViewport(page[i], innerHeight, scrollTop) {
        ResolveIdempotent(page[i]);
      }
    }
  }

  // ---------------------------------------------------------------------
  // Conversion of plain images into placeholders

  /** Matched by `img:not([data-src]):not(.loaded)`. */
  predicate ConversionCandidate(img: Image) {
    !HasDataSrcAttr(img) && Loaded !in img.classes
  }

  /** The skip test inside the conversion loop. */
  predicate SkipConversion(img: Image) {
    || Loaded in img.classes
    || Src(img) == ""
    || Contains(Src(img), DataImage)
    || Contains(Src(img), "placeholder.png")
    || EndsWith(Src(img), ".svg")
  }

  predicate Converts(img: Image) {
    ConversionCandidate(img) && !SkipConversion(img)
  }

  /** What the conversion pass does to one image: the real `src` moves to
      `data-src`, a non-empty `srcset` moves to `data-srcset` and is cleared,
      `src` becomes the placeholder and `lazy-load` is added. */
  function Convert(img: Image): (r: Image)
    ensures Converts(img) ==>
      && DataSrc(r) == Src(img) && HasDataSrcAttr(r)
      && Src(r) == Placeholder
      && r.classes == img.classes + {LazyLoadClass}
      && (Attr(img.attrs, "srcset") != "" ==>
            Attr(r.attrs, "data-srcset") == Attr(img.attrs, "srcset") && Attr(r.attrs, "srcset") == "")
      && (Attr(img.attrs, "srcset") == "" ==>
            Attr(r.attrs, "data-srcset") == Attr(img.attrs, "data-srcset") && Attr(r.attrs, "srcset") == "")
    ensures !Converts(img) ==> r == img
    ensures forall k :: k != "src" && k != "data-src" && k != "srcset" && k != "data-srcset" ==>
      Attr(r.attrs, k) == Attr(img.attrs, k)
    ensures r.offsetTop == img.offsetTop && r.galleryItem == img.galleryItem
  {
    if !Converts(img) then img
    else
      var moved := WithAttr(img, "data-src", Src(img));
      var srcset := Attr(img.attrs, "srcset");
      var sets := if srcset != "" then WithAttr(WithAttr(moved, "data-srcset", srcset), "srcset", "") else moved;
      WithClass(WithAttr(sets, "src", Placeholder), LazyLoadClass)
  }

  function ConvertAll(page: seq<Image>): (r: seq<Image>)
    ensures |r| == |page| && forall i :: 0 <= i < |page| ==> r[i] == Convert(page[i])
  {
    seq(|page|, i requires 0 <= i < |page| => Convert(page[i]))
  }

  /** A converted image fails both tests a second pass applies: it now has a
      `data-src`, and its `src` contains `data:image`. So a second pass is a
      no-op. */
  lemma {:induction false} ConvertedIsSkipped(img: Image)
    requires Converts(img)
    ensures !ConversionCandidate(Convert(img)) && SkipConversion(Convert(img))
    ensures Convert(Convert(img)) == Convert(img)
  {
    ContainsPrefix(Placeholder, DataImage);
  }

  /** The conversion and the fallback scan touch disjoint images: the scan
      only resolves snapshot images, which carry `data-src` and so are never
      converted, and resolution keeps `data-src`. Their order therefore does
      not matter. */
  lemma {:induction false} ScanCommutesWithConversion(page: seq<Image>, innerHeight: int, scrollTop: real)
    ensures var lazy := Snapshot(page);
      FallbackPass(ConvertAll(page), lazy, innerHeight, scrollTop) ==
      ConvertAll(FallbackPass(page, lazy, innerHeight, scrollTop))
  {
    var lazy := Snapshot(page);
    var a := FallbackPass(ConvertAll(page), lazy, innerHeight, scrollTop);
    var b := ConvertAll(FallbackPass(page, lazy, innerHeight, scrollTop));
    forall i | 0 <= i < |page| ensures a[i] == b[i] {
      if i in lazy {
        assert Pending(page[i]);
        assert Convert(page[i]) == page[i];
      }
    }
  }

  // ---------------------------------------------------------------------
  // The error handler

  const SrcAssignment := "this.src='"

  /** The characters the regular-expression `.` does not match. */
  predicate LineTerminator(c: char) {
    c == '\n' || c == '\r' || c == '\U{2028}' || c == '\U{2029}'
  }

  /** The lazy group `(.+?)'` tried from position `j`, with the candidate end
      `e`: the first `e > j` with a quote at `e` and no line terminator in
      `s[j..e]`. */
  function QuotedFrom(s: string, j: nat, e: nat): (r: Option<string>)
    requires j < e
    requires forall k :: j < k < e && k < |s| ==> s[k] != '\''
    requires forall k :: j <= k < e - 1 && k < |s| ==> !LineTerminator(s[k])
    decreases |s| - e
    ensures r.Some? ==>
      var x := r.value;
      && |x| >= e - j && j + |x| < |s| && s[j..j + |x|] == x && s[j + |x|] == '\''
      && (forall k :: 0 <= k < |x| ==> !LineTerminator(x[k]))
      && (forall k :: 1 <= k < |x| ==> x[k] != '\'')
  {
    if e >= |s| || e - 1 >= |s| then None
    else if LineTerminator(s[e - 1]) then None
    else if s[e] == '\'' then Some(s[j..e])
    else QuotedFrom(s, j, e + 1)
  }

  /** The lazy group finds a capture whenever some quote at or after `e`
      follows with no line terminator in front of it. */
  lemma {:induction false} QuotedComplete(s: string, j: nat, e: nat, q: nat)
    requires j < e <= q < |s| && s[q] == '\''
    requires forall k :: j < k < e && k < |s| ==> s[k] != '\''
    requires forall k :: j <= k < q ==> !LineTerminator(s[k])
    decreases q - e
    ensures QuotedFrom(s, j, e).Some?
  {
    if s[e] != '\'' {
      QuotedComplete(s, j, e + 1, q);
    }
  }

  /** The match of `this\.src='(.+?)'` that starts at position `p`, if any. */
  function CaptureAt(s: string, p: nat): (r: Option<string>)
    ensures r.Some? ==>
      var x := r.value;
      && p + |SrcAssignment| + |x| < |s|
      && s[p..p + |SrcAssignment|] == SrcAssignment
      && s[p + |SrcAssignment|..p + |SrcAssignment| + |x|] == x
      && s[p + |SrcAssignment| + |x|] == '\''
      && |x| >= 1
      && (forall k :: 0 <= k < |x| ==> !LineTerminator(x[k]))
      && (forall k :: 1 <= k < |x| ==> x[k] != '\'')
  {
    if p + |SrcAssignment| <= |s| && s[p..p + |SrcAssignment|] == SrcAssignment then
      QuotedFrom(s, p + |SrcAssignment|, p + |SrcAssignment| + 1)
    else None
  }

  /** `this.src='` at `p` followed, after at least one character, by a
      quote at `q`, with no line terminator in between. */
  predicate MatchSpan(s: string, p: nat, q: nat) {
    && p + |SrcAssignment| < q < |s|
    && s[p..p + |SrcAssignment|] == SrcAssignment && s[q] == '\''
    && forall k :: p + |SrcAssignment| <= k < q ==> !LineTerminator(s[k])
  }

  /** Conversely, every such span makes a match start at `p`. */
  lemma CaptureComplete(s: string, p: nat, q: nat)
    requires MatchSpan(s, p, q)
    ensures CaptureAt(s, p).Some?
  {
    QuotedComplete(s, p + |SrcAssignment|, p + |SrcAssignment| + 1, q);
  }

  /** The position of the leftmost match at or after position `p`. */
  function FindFrom(s: string, p: nat): (r: Option<nat>)
    decreases |s| + 1 - p
    ensures r.Some? ==> p <= r.value <= |s| && CaptureAt(s, r.value).Some?
    ensures r.Some? ==> forall q :: p <= q < r.value ==> CaptureAt(s, q).None?
    ensures r.None? ==> forall q :: p <= q <= |s| ==> CaptureAt(s, q).None?
  {
    if p > |s| then None
    else if CaptureAt(s, p).Some? then Some(p)
    else FindFrom(s, p + 1)
  }

  /** `handler.match(/this\.src='(.+?)'/)[1]`: the first capture of the
      leftmost match, if there is one. */
  function InlineFallback(handler: string): (r: Option<string>)
    ensures r.Some? ==> |r.value| >= 1 && exists p: nat ::
      && p <= |handler| && CaptureAt(handler, p) == r
      && forall q :: 0 <= q < p ==> CaptureAt(handler, q).None?
    ensures r.None? ==> forall p: nat :: p <= |handler| ==> CaptureAt(handler, p).None?
  {
    match FindFrom(handler, 0)
    case None => None
    case Some(p) => CaptureAt(handler, p)
  }

  /** A match at `p` spans up to the quote that closes its capture. */
  lemma CaptureSpan(s: string, p: nat)
    requires CaptureAt(s, p).Some?
    ensures MatchSpan(s, p, p + |SrcAssignment| + |CaptureAt(s, p).value|)
  {
    var x := CaptureAt(s, p).value;
    var j := p + |SrcAssignment|;
    assert forall k :: j <= k < j + |x| ==> s[k] == x[k - j];
  }

  /** The handler has no match exactly when no `this.src='` in it is
      followed, after at least one character, by a quote on the same line. */
  lemma NoInlineFallback(handler: string)
    ensures InlineFallback(handler).None? <==> forall p: nat, q: nat :: !MatchSpan(handler, p, q)
  {
    match FindFrom(handler, 0)
    case None =>
      forall p: nat, q: nat | MatchSpan(handler, p, q)
        ensures false
      {
        CaptureComplete(handler, p, q);
      }
    case Some(p) =>
      CaptureSpan(handler, p);
  }

  /** The source the error handler substitutes: the inline handler's target
      when the `onerror` attribute names one, else `img/1.jpg`. */
  function FallbackSrc(img: Image): string {
    var handler := Attr(img.attrs, "onerror");
    if handler != "" && InlineFallback(handler).Some? then InlineFallback(handler).value
    else FallbackImage
  }

  /** The error handler: guarded by `error-handled`, which it adds. */
  function ErrorFallback(img: Image): (r: Image)
    ensures ErrorHandled in r.classes
    ensures ErrorHandled in img.classes ==> r == img
    ensures ErrorHandled !in img.classes ==>
      && Src(r) == FallbackSrc(img) && Src(r) != ""
      && r.classes == img.classes + {ErrorHandled}
      && forall k :: k != "src" ==> Attr(r.attrs, k) == Attr(img.attrs, k)
    ensures r.offsetTop == img.offsetTop && r.galleryItem == img.galleryItem
  {
    if ErrorHandled in img.classes then img
    else WithAttr(WithClass(img, ErrorHandled), "src", FallbackSrc(img))
  }

  /** A second error event on the same image changes nothing: the fallback
      source is substituted at most once. */
  lemma ErrorFallbackOnce(img: Image)
    ensures ErrorFallback(ErrorFallback(img)) == ErrorFallback(img)
  {
  }

  /** On the fallback path the snapshot is rescanned on every scroll and
      already-loaded images are not skipped: after an image in view has been
      resolved and has failed, the next scroll puts the failing `data-src`
      back into `src`, and since `error-handled` is set, the next error no
      longer substitutes the fallback. */
  lemma RescanUndoesErrorFallback(img: Image, lazy: seq<nat>, innerHeight: int, scrollTop: real)
    requires Resolvable(img) && ErrorHandled !in img.classes
    requires 0 in lazy && InViewport(img, innerHeight, scrollTop)
    ensures var resolved := FallbackPass([img], lazy, innerHeight, scrollTop)[0];
            var failed := ErrorFallback(resolved);
            var rescanned := FallbackPass([failed], lazy, innerHeight, scrollTop)[0];
            && Src(failed) == FallbackSrc(resolved)
            && Src(rescanned) == DataSrc(img)
            && ErrorFallback(rescanned) == rescanned
  {
    var resolved := Resolve(img);
    var failed := ErrorFallback(resolved);
    assert DataSrc(failed) == DataSrc(img);
  }

  // ---------------------------------------------------------------------
  // The page

  /** One entry of an IntersectionObserver callback batch. */
  datatype Entry = Entry(target: nat, isIntersecting: bool)

  /** Some entry of the batch reports image `i` as intersecting. */
  ghost predicate Hit(entries: seq<Entry>, i: nat) {
    exists k :: 0 <= k < |entries| && entries[k].target == i && entries[k].isIntersecting
  }

  /** The images of one page and the loader's state: the preload counter,
      the snapshot `lazyImages`, the set of observed images and whether the
      scroll/resize/orientation listeners of the fallback path are
      registered. */
  class LazyLoader {
    const imgs: array<Image>
    var loadedImagesCount: nat
    var lazyImages: seq<nat>
    var observed: set<nat>
    var listening: bool

    ghost predicate Valid()
      reads this
    {
      && (forall i :: i in lazyImages ==> i < imgs.Length)
      && (forall i :: i in observed ==> i < imgs.Length)
    }

    constructor (page: seq<Image>)
      ensures Valid() && fresh(imgs) && imgs[..] == page
      ensures loadedImagesCount == 0 && lazyImages == [] && observed == {} && !listening
    {
      imgs := new Image[|page|](i requires 0 <= i < |page| => page[i]);
      loadedImagesCount := 0;
      lazyImages := [];
      observed := {};
      listening := false;
    }

    /** `preloadCriticalImages`. */
    method PreloadCriticalImages()
      modifies imgs, this`loadedImagesCount
      ensures imgs[..] == PreloadAll(old(imgs[..]))
      ensures loadedImagesCount == old(loadedImagesCount) + PreloadCount(old(imgs[..]))
    {
      ghost var page := imgs[..];
      var i := 0;
      while i < imgs.Length
        invariant 0 <= i <= imgs.Length
        invariant forall k :: 0 <= k < i ==> imgs[k] == Preload(page[k])
        invariant forall k :: i <= k < imgs.Length ==> imgs[k] == page[k]
        invariant loadedImagesCount == old(loadedImagesCount) + PreloadCount(page[..i])
      {
        var img := imgs[i];
        if img.galleryItem.Some? && img.galleryItem.value < PreloadedGalleryItems && HasDataSrcAttr(img) {
          var src := DataSrc(img);
          if src != "" {
            imgs[i] := WithClass(WithAttr(img, "src", src), Loaded);
            loadedImagesCount := loadedImagesCount + 1;
          }
        }
        assert page[..i + 1][..i] == page[..i];
        i := i + 1;
      }
      assert page[..imgs.Length] == page;
    }

    /** `document.querySelectorAll('img[data-src]:not(.loaded)')`. */
    method TakeSnapshot()
      modifies this`lazyImages
      ensures lazyImages == Snapshot(imgs[..])
      ensures Valid() <==> forall i :: i in observed ==> i < imgs.Length
    {
      lazyImages := Snapshot(imgs[..]);
    }

    /** `lazyImages.forEach(image => imageObserver.observe(image))`. */
    method ObserveAll()
      requires Valid()
      modifies this`observed
      ensures Valid()
      ensures observed == old(observed) + set i | i in lazyImages
    {
      var k := 0;
      while k < |lazyImages|
        invariant 0 <= k <= |lazyImages|
        invariant observed == old(observed) + set i | i in lazyImages[..k]
        invariant Valid()
      {
        assert lazyImages[..k + 1] == lazyImages[..k] + [lazyImages[k]];
        assert lazyImages[k] in lazyImages;
        observed := observed + {lazyImages[k]};
        k := k + 1;
      }
      assert lazyImages[..k] == lazyImages;
    }

    /** The IntersectionObserver callback: every intersecting entry whose
        image has a non-empty `data-src` resolves that image and unobserves
        it; other entries change nothing. */
    method OnIntersection(entries: seq<Entry>)
      requires Valid()
      requires forall k :: 0 <= k < |entries| ==> entries[k].target in observed
      modifies imgs, this`observed
      ensures Valid()
      ensures forall i :: 0 <= i < imgs.Length ==>
        imgs[i] == if Hit(entries, i) then Resolve(old(imgs[i])) else old(imgs[i])
      ensures observed == old(observed) - set i | i in old(observed) && Hit(entries, i) && Resolvable(old(imgs[i]))
    {
      ghost var page := imgs[..];
      var k := 0;
      while k < |entries|
        invariant 0 <= k <= |entries|
        invariant Valid() && observed <= old(observed)
        invariant forall i :: 0 <= i < imgs.Length ==>
          imgs[i] == if Hit(entries[..k], i) then Resolve(page[i]) else page[i]
        invariant observed == old(observed) - set i | i in old(observed) && Hit(entries[..k], i) && Resolvable(page[i])
      {
        var entry := entries[k];
        assert forall i :: Hit(entries[..k + 1], i) <==>
          Hit(entries[..k], i) || (entry.target == i && entry.isIntersecting) by {
          forall i ensures Hit(entries[..k + 1], i) <==> Hit(entries[..k], i) || (entry.target == i && entry.isIntersecting) {
            if Hit(entries[..k + 1], i) {
              var j :| 0 <= j < k + 1 && entries[..k + 1][j].target == i && entries[..k + 1][j].isIntersecting;
              if j < k { assert entries[..k][j] == entries[..k + 1][j]; }
            }
            if Hit(entries[..k], i) {
              var j :| 0 <= j < k && entries[..k][j].target == i && entries[..k][j].isIntersecting;
              assert entries[..k + 1][j] == entries[..k][j];
            }
            if entry.target == i && entry.isIntersecting {
              assert entries[..k + 1][k] == entry;
            }
          }
        }
        if entry.isIntersecting {
          var image := imgs[entry.target];
          if DataSrc(image) != "" {
            ResolveIdempotent(page[entry.target]);
            imgs[entry.target] := Resolve(image);
            observed := observed - {entry.target};
          }
        }
        k := k + 1;
      }
      assert entries[..k] == entries;
      forall i | 0 <= i < imgs.Length
        ensures imgs[i] == if Hit(entries, i) then Resolve(old(imgs[i])) else old(imgs[i])
      {
        assert page[i] == old(imgs[i]);
      }
    }

    /** The debounced body of `lazyLoad`: every snapshot image inside the
        viewport is resolved (again, if it already was), and the listeners
        are removed only when the snapshot is empty. */
    method LazyLoad(innerHeight: int, scrollTop: real)
      requires Valid()
      modifies imgs, this`listening
      ensures Valid()
      ensures imgs[..] == FallbackPass(old(imgs[..]), lazyImages, innerHeight, scrollTop)
      ensures listening == (old(listening) && |lazyImages| > 0)
    {
      ghost var page := imgs[..];
      var k := 0;
      while k < |lazyImages|
        invariant 0 <= k <= |lazyImages|
        invariant Valid() && listening == old(listening)
        invariant forall i :: 0 <= i < imgs.Length ==>
          imgs[i] == if i in lazyImages[..k] && InViewport(page[i], innerHeight, scrollTop) then Resolve(page[i]) else page[i]
      {
        var i := lazyImages[k];
        assert lazyImages[..k + 1] == lazyImages[..k] + [i];
        assert i in lazyImages;
        var img := imgs[i];
        if (img.offsetTop as real) < (innerHeight as real) + scrollTop {
          if DataSrc(img) != "" {
            ResolveIdempotent(page[i]);
            imgs[i] := Resolve(img);
          }
        }
        k := k + 1;
      }
      assert lazyImages[..k] == lazyImages;
      if |lazyImages| == 0 {
        listening := false;
      }
    }

    /** `convertImagesToLazyLoad`. */
    method ConvertImagesToLazyLoad()
      modifies imgs
      ensures imgs[..] == ConvertAll(old(imgs[..]))
    {
      var i := 0;
      while i < imgs.Length
        invariant 0 <= i <= imgs.Length
        invariant forall k :: 0 <= k < i ==> imgs[k] == Convert(old(imgs[k]))
        invariant forall k :: i <= k < imgs.Length ==> imgs[k] == old(imgs[k])
      {
        ConvertAt(i);
        i := i + 1;
      }
      assert imgs[..] == ConvertAll(old(imgs[..]));
    }

    /** The loop body of `convertImagesToLazyLoad` for image `i`. */
    method ConvertAt(i: nat)
      requires i < imgs.Length
      modifies imgs
      ensures imgs[i] == Convert(old(imgs[i]))
      ensures forall k :: 0 <= k < imgs.Length && k != i ==> imgs[k] == old(imgs[k])
    {
      var img := imgs[i];
      if ConversionCandidate(img) && !SkipConversion(img) {
        var next := WithAttr(img, "data-src", Src(img));
        var srcset := Attr(img.attrs, "srcset");
        if srcset != "" {
          next := WithAttr(WithAttr(next, "data-srcset", srcset), "srcset", "");
        }
        imgs[i] := WithClass(WithAttr(next, "src", Placeholder), LazyLoadClass);
      }
    }

    /** The jQuery `error` handler for image `i`. */
    method OnError(i: nat)
      requires i < imgs.Length
      modifies imgs
      ensures imgs[i] == ErrorFallback(old(imgs[i]))
      ensures forall k :: 0 <= k < imgs.Length && k != i ==> imgs[k] == old(imgs[k])
    {
      var img := imgs[i];
      if ErrorHandled !in img.classes {
        img := WithClass(img, ErrorHandled);
        var handler := Attr(img.attrs, "onerror");
        if handler != "" {
          var capture := InlineFallback(handler);
          if capture.Some? {
            imgs[i] := WithAttr(img, "src", capture.value);
            return;
          }
        }
        imgs[i] := WithAttr(img, "src", FallbackImage);
      }
    }

    /** The document-ready body. `observerAvailable` is the
        `'IntersectionObserver' in window` probe; `isFreshLoad` is the
        `performance.navigation.type === 0` gate. On the fallback path the
        first scan is deferred by a timer, so it runs after the conversion,
        at `innerHeight` and `scrollTop`. */
    method Start(observerAvailable: bool, isFreshLoad: bool, innerHeight: int, scrollTop: real)
      requires Valid() && lazyImages == [] && observed == {} && !listening
      modifies this, imgs
      ensures Valid()
      ensures lazyImages == Snapshot(PreloadAll(old(imgs[..])))
      ensures loadedImagesCount == old(loadedImagesCount) + PreloadCount(old(imgs[..]))
      ensures var preloaded := PreloadAll(old(imgs[..]));
        var converted := if isFreshLoad then ConvertAll(preloaded) else preloaded;
        imgs[..] == if observerAvailable then converted else FallbackPass(converted, lazyImages, innerHeight, scrollTop)
      ensures forall i :: 0 <= i < imgs.Length && Pending(old(imgs[i])) ==>
        (Preloadable(old(imgs[i])) <==> i !in lazyImages)
      ensures forall i :: i in lazyImages ==> HasDataSrcAttr(old(imgs[i]))
      ensures observed == if observerAvailable then set i | i in lazyImages else {}
      ensures listening == (!observerAvailable && |lazyImages| > 0)
    {
      ghost var page := imgs[..];
      PreloadCriticalImages();
      TakeSnapshot();
      forall i | 0 <= i < imgs.Length && Pending(page[i])
        ensures Preloadable(page[i]) <==> i !in lazyImages
      {
        EagerXorObserved(page, i);
      }
      if observerAvailable {
        ObserveAll();
      } else {
        listening := true;
      }
      if isFreshLoad {
        ConvertImagesToLazyLoad();
      }
      if !observerAvailable {
        LazyLoad(innerHeight, scrollTop);
      }
    }
  }
}
