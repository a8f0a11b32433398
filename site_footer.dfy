/** The footer links of components/SiteFooter.tsx carry the reader's language
    as an `hl=` query parameter. */
module SiteFooter {
  import opened Strings
  import opened Types

  /** `buildLocalizedHref(path, localeQuery)`: the query appended after `?`, or
      after `&` when the path already has a query. */
  function BuildLocalizedHref(path: string, localeQuery: string): (r: string)
    ensures localeQuery == "" ==> r == path
    ensures StartsWith(r, path)
    ensures localeQuery != "" ==>
              && |r| == |path| + 1 + |localeQuery| && EndsWith(r, localeQuery)
              && r[|path|] == (if '?' in path then '&' else '?')
  {
    if localeQuery == "" then path
    else
      var separator := if '?' in path then '&' else '?';
      var r := path + [separator] + localeQuery;
      assert r[..|path|] == path;
      assert r[|r| - |localeQuery|..] == localeQuery;
      r
  }

  /** The address part before any query. */
  function PathPart(href: string): string {
    href[..IndexOf(href, '?')]
  }

  /** Adding the language never changes where a link points, only its query:
      the part before the first `?` stays the same, and the result has a
      query. */
  lemma LocalizedHrefKeepsPath(path: string, localeQuery: string)
    requires localeQuery != ""
    ensures '?' in BuildLocalizedHref(path, localeQuery)
    ensures PathPart(BuildLocalizedHref(path, localeQuery)) == PathPart(path)
  {
    var r := BuildLocalizedHref(path, localeQuery);
    var i := IndexOf(path, '?');
    assert r[..|path|] == path;
    if i < |path| {
      assert r[i] == '?';
      forall j | 0 <= j < i ensures r[j] != '?' {
        assert r[j] == path[j];
      }
      assert IndexOf(r, '?') == i;
    } else {
      assert r[|path|] == '?';
      forall j | 0 <= j < |path| ensures r[j] != '?' {
        assert r[j] == path[j];
      }
      assert IndexOf(r, '?') == |path|;
    }
    assert r[..i] == path[..i];
  }

  /** The `hl=` value of each language. */
  function LocaleQuery(locale: Locale): (r: string)
    ensures StartsWith(r, "hl=") && |r| > 3
    ensures locale == Zh <==> r[3..] == "zh-cn"
  {
    var r := if locale == Zh then "hl=zh-cn" else "hl=en";
    assert r[..3] == "hl=";
    assert "hl=en"[3..] == "en";
    r
  }
}
