/** js/lazy-loading-fix.js: the minimal variant. Every `data-src` is copied
    into `src` once, with no `loaded` class, and the guarded error handler of
    the simple variant substitutes `img/1.jpg` at most once. */
module LazyLoadingFix {
  import opened Dom
  import opened LazyLoadingSimple

  /** The copy loop on one image: a non-empty `data-src` becomes `src`; the
      classes and every other attribute, `data-src` included, stay. */
  function CopyDataSrc(img: Image): (r: Image)
    ensures DataSrc(img) != "" ==> Src(r) == DataSrc(img)
    ensures DataSrc(img) == "" ==> r == img
    ensures r.classes == img.classes && HasDataSrcAttr(r) == HasDataSrcAttr(img)
    ensures forall k :: k != "src" ==> Attr(r.attrs, k) == Attr(img.attrs, k)
  {
    var src := DataSrc(img);
    if src != "" then WithAttr(img, "src", src) else img
  }

  /** The state after `n` error events. */
  function AfterErrors(img: Image, n: nat): Image
    decreases n
  {
    if n == 0 then img else AfterErrors(GuardedFallback(img), n - 1)
  }

  /** Any number of error events has the effect of the first one: the
      fallback is substituted at most once, and only when `src` was not
      already `img/1.jpg`. */
  lemma {:induction false} ErrorsAfterFirstAreNoOps(img: Image, n: nat)
    requires n >= 1
    ensures AfterErrors(img, n) == GuardedFallback(img)
    ensures ErrorHandled !in img.classes ==> Src(AfterErrors(img, n)) == FallbackImage
    ensures ErrorHandled in img.classes ==> AfterErrors(img, n) == img
    decreases n
  {
    if n > 1 {
      ErrorsAfterFirstAreNoOps(GuardedFallback(img), n - 1);
    }
  }

  class FixLoader {
    const imgs: array<Image>

    constructor (page: seq<Image>)
      ensures fresh(imgs) && imgs[..] == page
    {
      imgs := new Image[|page|](i requires 0 <= i < |page| => page[i]);
    }

    /** `$('img[data-src]').each(...)`. */
    method CopyAll()
      modifies imgs
      ensures forall i :: 0 <= i < imgs.Length ==> imgs[i] == CopyDataSrc(old(imgs[i]))
    {
      var i := 0;
      while i < imgs.Length
        invariant 0 <= i <= imgs.Length
        invariant forall k :: 0 <= k < i ==> imgs[k] == CopyDataSrc(old(imgs[k]))
        invariant forall k :: i <= k < imgs.Length ==> imgs[k] == old(imgs[k])
      {
        var img := imgs[i];
        if HasDataSrcAttr(img) {
          var src := Attr(img.attrs, "data-src");
          if src != "" {
            imgs[i] := WithAttr(img, "src", src);
          }
        }
        i := i + 1;
      }
    }

    /** The jQuery `error` handler for image `i`. */
    method OnError(i: nat)
      requires i < imgs.Length
      modifies imgs
      ensures imgs[i] == GuardedFallback(old(imgs[i]))
      ensures forall k :: 0 <= k < imgs.Length && k != i ==> imgs[k] == old(imgs[k])
    {
      var img := imgs[i];
      if ErrorHandled !in img.classes {
        img := WithClass(img, ErrorHandled);
        if Src(img) != FallbackImage {
          img := WithAttr(img, "src", FallbackImage);
        }
        imgs[i] := img;
      }
    }
  }
}
