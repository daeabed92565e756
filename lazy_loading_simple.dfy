/** js/lazy-loading-simple.js: every `data-src` image is resolved at once, a
    guarded error handler substitutes `img/1.jpg` at most once, and an
    IntersectionObserver resolves and unobserves images again when they come
    into view. This variant never reads or writes `srcset`. */
module LazyLoadingSimple {
  import opened Dom

  /** Resolution in this variant: with a non-empty `data-src`, `src` takes it
      and `loaded` is added; nothing else changes. */
  function SimpleResolve(img: Image): (r: Image)
    ensures DataSrc(img) != "" ==> Src(r) == DataSrc(img) && r.classes == img.classes + {Loaded}
    ensures DataSrc(img) == "" ==> r == img
    ensures forall k :: k != "src" ==> Attr(r.attrs, k) == Attr(img.attrs, k)
    ensures HasDataSrcAttr(r) == HasDataSrcAttr(img)
  {
    var src := DataSrc(img);
    if src != "" then WithClass(WithAttr(img, "src", src), Loaded) else img
  }

  /** Re-resolving an already-resolved image leaves it unchanged. */
  lemma SimpleResolveIdempotent(img: Image)
    ensures SimpleResolve(SimpleResolve(img)) == SimpleResolve(img)
  {
    if DataSrc(img) != "" {
      var r := SimpleResolve(img);
      assert r.attrs["src" := DataSrc(img)] == r.attrs;
    }
  }

  /** The guarded error handler shared by this variant and
      lazy-loading-fix.js: the first error adds `error-handled` and sets `src`
      to `img/1.jpg` unless it already is; later errors change nothing. */
  function GuardedFallback(img: Image): (r: Image)
    ensures ErrorHandled in r.classes
    ensures ErrorHandled in img.classes ==> r == img
    ensures ErrorHandled !in img.classes ==>
      Src(r) == FallbackImage && r.classes == img.classes + {ErrorHandled}
    ensures forall k :: k != "src" ==> Attr(r.attrs, k) == Attr(img.attrs, k)
    ensures HasDataSrcAttr(r) == HasDataSrcAttr(img)
  {
    if ErrorHandled in img.classes then img
    else
      var marked := WithClass(img, ErrorHandled);
      if Src(marked) != FallbackImage then WithAttr(marked, "src", FallbackImage) else marked
  }

  /** The events that touch an image in this variant. */
  datatype Event = Resolution | LoadError

  function Step(img: Image, e: Event): Image {
    match e
    case Resolution => SimpleResolve(img)
    case LoadError => GuardedFallback(img)
  }

  function Run(img: Image, events: seq<Event>): Image
    decreases |events|
  {
    if events == [] then img else Run(Step(img, events[0]), events[1..])
  }

  /** Whatever sequence of resolutions and errors an image goes through, its
      `srcset` and `data-srcset` stay as the markup set them, and so does
      every attribute other than `src`. */
  lemma {:induction false} SrcsetUntouched(img: Image, events: seq<Event>)
    ensures forall k :: k != "src" ==> Attr(Run(img, events).attrs, k) == Attr(img.attrs, k)
    ensures Attr(Run(img, events).attrs, "srcset") == Attr(img.attrs, "srcset")
    decreases |events|
  {
    if events != [] {
      SrcsetUntouched(Step(img, events[0]), events[1..]);
    }
  }

  /** One entry of an IntersectionObserver callback batch. */
  datatype Entry = Entry(target: nat, isIntersecting: bool)

  ghost predicate Hit(entries: seq<Entry>, i: nat) {
    exists k :: 0 <= k < |entries| && entries[k].target == i && entries[k].isIntersecting
  }

  /** The page's images and the set of images the observer watches. */
  class SimpleLoader {
    const imgs: array<Image>
    var observed: set<nat>

    ghost predicate Valid()
      reads this
    {
      forall i :: i in observed ==> i < imgs.Length
    }

    constructor (page: seq<Image>)
      ensures Valid() && fresh(imgs) && imgs[..] == page && observed == {}
    {
      imgs := new Image[|page|](i requires 0 <= i < |page| => page[i]);
      observed := {};
    }

    /** `$('img[data-src]').each(...)`. */
    method ResolveAll()
      modifies imgs
      ensures forall i :: 0 <= i < imgs.Length ==> imgs[i] == SimpleResolve(old(imgs[i]))
    {
      var i := 0;
      while i < imgs.Length
        invariant 0 <= i <= imgs.Length
        invariant forall k :: 0 <= k < i ==> imgs[k] == SimpleResolve(old(imgs[k]))
        invariant forall k :: i <= k < imgs.Length ==> imgs[k] == old(imgs[k])
      {
        var img := imgs[i];
        if HasDataSrcAttr(img) {
          var src := Attr(img.attrs, "data-src");
          if src != "" {
            imgs[i] := WithClass(WithAttr(img, "src", src), Loaded);
          }
        }
        i := i + 1;
      }
    }

    /** The jQuery `error` handler for image `i`. */
    method OnError(i: nat)
      requires i < imgs.Length
      modifies imgs
      ensures imgs[i] == GuardedFallback(old(imgs[i]))
      ensures forall k :: 0 <= k < imgs.Length && k != i ==> imgs[k] == old(imgs[k])
    {
      var img := imgs[i];
      if ErrorHandled !in img.classes {
        img := WithClass(img, ErrorHandled);
        if Src(img) != FallbackImage {
          img := WithAttr(img, "src", FallbackImage);
        }
        imgs[i] := img;
      }
    }

    /** `document.querySelectorAll('img[data-src]').forEach(observe)`: every
        image that carries the attribute, resolved or not. */
    method ObserveAll()
      modifies this`observed
      ensures Valid()
      ensures observed == old(observed) + set i | 0 <= i < imgs.Length && HasDataSrcAttr(imgs[i])
      requires Valid()
    {
      var i := 0;
      while i < imgs.Length
        invariant 0 <= i <= imgs.Length && Valid()
        invariant observed == old(observed) + set k | 0 <= k < i && HasDataSrcAttr(imgs[k])
      {
        if HasDataSrcAttr(imgs[i]) {
          observed := observed + {i};
        }
        i := i + 1;
      }
    }

    /** The observer callback: an intersecting entry with a non-empty
        `data-src` resolves its image and unobserves it. */
    method OnIntersection(entries: seq<Entry>)
      requires Valid()
      requires forall k :: 0 <= k < |entries| ==> entries[k].target in observed
      modifies imgs, this`observed
      ensures Valid()
      ensures forall i :: 0 <= i < imgs.Length ==>
        imgs[i] == if Hit(entries, i) then SimpleResolve(old(imgs[i])) else old(imgs[i])
      ensures observed == old(observed) - set i | i in old(observed) && Hit(entries, i) && DataSrc(old(imgs[i])) != ""
    {
      ghost var page := imgs[..];
      var k := 0;
      while k < |entries|
        invariant 0 <= k <= |entries|
        invariant Valid() && observed <= old(observed)
        invariant forall i :: 0 <= i < imgs.Length ==>
          imgs[i] == if Hit(entries[..k], i) then SimpleResolve(page[i]) else page[i]
        invariant observed == old(observed) - set i | i in old(observed) && Hit(entries[..k], i) && DataSrc(page[i]) != ""
      {
        var entry := entries[k];
        forall i ensures Hit(entries[..k + 1], i) <==> Hit(entries[..k], i) || (entry.target == i && entry.isIntersecting) {
          if Hit(entries[..k + 1], i) {
            var j :| 0 <= j < k + 1 && entries[..k + 1][j].target == i && entries[..k + 1][j].isIntersecting;
            if j < k { assert entries[..k][j] == entries[..k + 1][j]; }
          }
          if Hit(entries[..k], i) {
            var j :| 0 <= j < k && entries[..k][j].target == i && entries[..k][j].isIntersecting;
            assert entries[..k + 1][j] == entries[..k][j];
          }
          if entry.target == i && entry.isIntersecting {
            assert entries[..k + 1][k] == entry;
          }
        }
        if entry.isIntersecting {
          var img := imgs[entry.target];
          if DataSrc(img) != "" {
            SimpleResolveIdempotent(page[entry.target]);
            imgs[entry.target] := SimpleResolve(img);
            observed := observed - {entry.target};
          }
        }
        k := k + 1;
      }
      assert entries[..k] == entries;
      forall i | 0 <= i < imgs.Length
        ensures imgs[i] == if Hit(entries, i) then SimpleResolve(old(imgs[i])) else old(imgs[i])
      {
        assert page[i] == old(imgs[i]);
      }
    }

    /** The document-ready body: resolve everything, then, when the observer
        exists, observe every `img[data-src]`. */
    method Start(observerAvailable: bool)
      requires Valid() && observed == {}
      modifies imgs, this`observed
      ensures Valid()
      ensures forall i :: 0 <= i < imgs.Length ==> imgs[i] == SimpleResolve(old(imgs[i]))
      ensures observed == if observerAvailable then set i | 0 <= i < imgs.Length && HasDataSrcAttr(old(imgs[i])) else {}
    {
      ResolveAll();
      if observerAvailable {
        ObserveAll();
      }
    }
  }
}
