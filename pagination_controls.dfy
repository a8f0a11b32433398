/** The previous/next links of components/PaginationControls.tsx. Each link
    copies the current parameters and sets `page` to the neighbouring page;
    a disabled link points at the bare path. The current path (`usePathname()`,
    which may be `null`) is the parameter `pathname`. */
module PaginationControls {
  import opened Wrappers
  import opened Strings
  import opened SearchParams
  import opened ShowcaseFiltersForm
  import SiteFooter

  function Max(a: int, b: int): int {
    if a >= b then a else b
  }

  /** The parameters of the previous link: `page` set to
      `Math.max(1, currentPage - 1)`. */
  function PrevParams(ps: Params, currentPage: int): (r: Params)
    ensures GetAll(r, "page") == [IntToString(Max(1, currentPage - 1))]
    ensures forall k :: k != "page" ==> GetAll(r, k) == GetAll(ps, k)
  {
    SetValue(ps, "page", IntToString(Max(1, currentPage - 1)))
  }

  /** The parameters of the next link: `page` set to `currentPage + 1`. */
  function NextParams(ps: Params, currentPage: int): (r: Params)
    ensures GetAll(r, "page") == [IntToString(currentPage + 1)]
    ensures forall k :: k != "page" ==> GetAll(r, k) == GetAll(ps, k)
  {
    SetValue(ps, "page", IntToString(currentPage + 1))
  }

  /** The previous link is disabled on the first page (or before it) and
      while loading: exactly when loading or when the link would not move
      back a page. */
  function DisablePrev(currentPage: int, isLoading: bool): (d: bool)
    ensures d <==> isLoading || Max(1, currentPage - 1) >= currentPage
  {
    currentPage <= 1 || isLoading
  }

  /** The next link is disabled on the last page and while loading: it is
      enabled exactly when there is a page after this one and nothing is
      loading. */
  function DisableNext(hasNext: bool, isLoading: bool): (d: bool)
    ensures !d ==> hasNext && !isLoading
    ensures hasNext && !isLoading ==> !d
  {
    !hasNext || isLoading
  }

  /** A link's target: the bare path (`/showcases` when there is none) when
      disabled, the path (`null` when there is none) and the query string
      otherwise. */
  function Href(pathname: Option<string>, disabled: bool, params: Params): (r: string)
    ensures disabled ==> r == SubmitTarget(pathname, [])
    ensures !disabled && params != [] ==> r == SubmitTarget(pathname, params)
    ensures (pathname.Some? ==> '?' !in pathname.value) ==> ('?' in r <==> !disabled)
  {
    if disabled then pathname.GetOr("/showcases") else pathname.GetOr("null") + "?" + Serialize(params)
  }

  /** Both links keep one key other than `page` as it was. */
  lemma LinksKeepKey(ps: Params, currentPage: int, k: string)
    requires k != "page"
    ensures GetAll(PrevParams(ps, currentPage), k) == GetAll(ps, k)
    ensures GetAll(NextParams(ps, currentPage), k) == GetAll(ps, k)
  {
  }

  /** Following the previous link reads back as the page before, never below
      the first page. */
  lemma PrevReadsBack(ps: Params, currentPage: int)
    ensures UsePagination(PrevParams(ps, currentPage)) == Max(1, currentPage - 1)
    ensures !DisablePrev(currentPage, false) ==> UsePagination(PrevParams(ps, currentPage)) == currentPage - 1
  {
    var p := PrevParams(ps, currentPage);
    GetAfterSet(ps, "page", IntToString(Max(1, currentPage - 1)));
    PageReadsBack(p, Max(1, currentPage - 1));
  }

  /** Following the next link reads back as the page after; from a page
      before the first it reads as the first page. */
  lemma NextReadsBack(ps: Params, currentPage: int)
    ensures UsePagination(NextParams(ps, currentPage)) == Max(1, currentPage + 1)
    ensures currentPage >= 1 ==> UsePagination(NextParams(ps, currentPage)) == currentPage + 1
  {
    var p := NextParams(ps, currentPage);
    GetAfterSet(ps, "page", IntToString(currentPage + 1));
    ParseIntOfIntToString(currentPage + 1);
  }

  /** An enabled link is the path, `?` and the serialised parameters, which
      are never empty: the part before the first `?` is the path and the rest
      is the query string. A disabled link is the bare path. */
  lemma HrefShape(pathname: Option<string>, disabled: bool, ps: Params, currentPage: int)
    requires pathname.Some? ==> '?' !in pathname.value
    ensures disabled ==> Href(pathname, disabled, PrevParams(ps, currentPage)) == pathname.GetOr("/showcases")
    ensures var h := Href(pathname, disabled, PrevParams(ps, currentPage));
            !disabled ==>
              && SiteFooter.PathPart(h) == pathname.GetOr("null")
              && h[|pathname.GetOr("null")| + 1..] == Serialize(PrevParams(ps, currentPage))
    ensures var h := Href(pathname, disabled, NextParams(ps, currentPage));
            !disabled ==>
              && SiteFooter.PathPart(h) == pathname.GetOr("null")
              && h[|pathname.GetOr("null")| + 1..] == Serialize(NextParams(ps, currentPage))
  {
    var prev, next := PrevParams(ps, currentPage), NextParams(ps, currentPage);
    if !disabled {
      assert GetAll(prev, "page") != [] && GetAll(next, "page") != [];
      SubmitTargetShape(pathname, prev);
      SubmitTargetShape(pathname, next);
    }
  }
}
