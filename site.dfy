/** The URL and locale settings of lib/site.ts. The environment values and the
    site origin are parameters: `siteUrl` is `SITE_URL`, already normalised, and
    `env` is the raw `NEXT_PUBLIC_…` value. */
module Site {
  import opened Wrappers
  import opened Strings
  import opened Types
  import I18n

  /** `s.replace(/^\/+/, '')`. */
  function DropLeadingSlashes(s: string): (r: string)
    ensures |r| <= |s| && r == s[|s| - |r|..]
    ensures r == [] || r[0] != '/'
    ensures forall i :: 0 <= i < |s| - |r| ==> s[i] == '/'
  {
    if s != [] && s[0] == '/' then DropLeadingSlashes(s[1..]) else s
  }

  /** `s.replace(/\/+$/, '')`. */
  function DropTrailingSlashes(s: string): (r: string)
    ensures |r| <= |s| && r == s[..|r|]
    ensures r == [] || r[|r| - 1] != '/'
    ensures forall i :: |r| <= i < |s| ==> s[i] == '/'
  {
    if s != [] && s[|s| - 1] == '/' then DropTrailingSlashes(s[..|s| - 1]) else s
  }

  /** Both slash runs dropped: what is left starts and ends with another
      character. */
  function Unslashed(t: string): (r: string)
    ensures r == [] || (r[0] != '/' && r[|r| - 1] != '/')
  {
    var lead := DropLeadingSlashes(t);
    var core := DropTrailingSlashes(lead);
    assert core == [] || core[0] == lead[0];
    core
  }

  /** `normalizeBasePath(value)`: the trimmed value without its leading and
      trailing slashes, behind one slash; `''` when nothing is left. */
  function NormalizeBasePath(value: Option<string>): (r: string)
    ensures value.None? || IsBlank(value.value) ==> r == ""
    ensures r == "" || (|r| >= 2 && r[0] == '/' && r[1] != '/' && r[|r| - 1] != '/')
  {
    match value
    case None => ""
    case Some(v) => SlashedCore(Trim(v))
  }

  /** The middle of `t` between its slash runs, behind one slash; `''` when
      nothing is left. */
  function SlashedCore(t: string): (r: string)
    ensures t == "" ==> r == ""
    ensures r == "" || (|r| >= 2 && r[0] == '/' && r[1] != '/' && r[|r| - 1] != '/')
  {
    var core := Unslashed(t);
    if core == "" then "" else ['/'] + core
  }

  /** `t` is slashes before position `i` and from position `j` on. */
  predicate SlashRuns(t: string, i: int, j: int) {
    && 0 <= i <= j <= |t|
    && (forall k :: 0 <= k < i ==> t[k] == '/')
    && (forall k :: j <= k < |t| ==> t[k] == '/')
  }

  /** Dropping the slash runs at both ends leaves the middle of `t`. */
  lemma SlashCore(t: string) returns (i: nat, j: nat)
    ensures SlashRuns(t, i, j) && Unslashed(t) == t[i..j]
  {
    var lead := DropLeadingSlashes(t);
    var core := DropTrailingSlashes(lead);
    i, j := |t| - |lead|, |t| - |lead| + |core|;
    assert t[i..j] == core;
    forall k | j <= k < |t| ensures t[k] == '/' {
      assert t[k] == lead[k - i];
    }
  }

  /** The base path is the part of the trimmed value between a leading run and
      a trailing run of slashes, behind one slash. */
  lemma BasePathIsCore(v: string)
    ensures var t, r := Trim(v), NormalizeBasePath(Some(v));
            exists i, j :: SlashRuns(t, i, j) && (r == "" <==> i == j) && (i < j ==> r == "/" + t[i..j])
  {
    var t := Trim(v);
    var i, j := SlashCore(t);
    if t == "" {
      assert SlashRuns(t, 0, 0);
    } else {
      assert NormalizeBasePath(Some(v)) == if i == j then "" else "/" + t[i..j];
    }
  }

  /** A value made only of slashes (after trimming) is no base path at all. */
  lemma SlashesOnlyBasePath(v: string)
    requires forall k :: 0 <= k < |Trim(v)| ==> Trim(v)[k] == '/'
    ensures NormalizeBasePath(Some(v)) == ""
  {
  }

  /** `getSiteUrl(pathname)`: the site origin for no path, an absolute URL
      as it is, and otherwise the origin followed by the path with exactly one
      slash between them. */
  function GetSiteUrl(siteUrl: string, pathname: Option<string>): (r: string)
    ensures pathname.None? || pathname.value == "" ==> r == siteUrl
    ensures pathname.Some? && (StartsWith(pathname.value, "http://") || StartsWith(pathname.value, "https://")) ==>
              r == pathname.value
    ensures var p := pathname.GetOr("");
            p != "" && !StartsWith(p, "http://") && !StartsWith(p, "https://") ==>
              && |r| > |siteUrl| && r[..|siteUrl|] == siteUrl && r[|siteUrl|] == '/'
              && r[|siteUrl| + 1..] == (if p[0] == '/' then p[1..] else p)
  {
    match pathname
    case None => siteUrl
    case Some(p) =>
      if p == "" then siteUrl
      else if StartsWith(p, "http://") || StartsWith(p, "https://") then p
      else
        var normalized := if StartsWith(p, "/") then p else "/" + p;
        assert normalized == "/" + (if p[0] == '/' then p[1..] else p) by {
          if p[0] == '/' {
            assert p == [p[0]] + p[1..];
          }
        }
        siteUrl + normalized
  }

  /** `getOgImageUrl()`: the cover image at the site origin. */
  function GetOgImageUrl(siteUrl: string): (r: string)
    ensures r == siteUrl + "/og-cover.png"
  {
    var path := "/og-cover.png";
    assert path[..7][0] != "http://"[0] && path[..8][0] != "https://"[0];
    assert StartsWith(path, "/");
    GetSiteUrl(siteUrl, Some(path))
  }

  /** `getDefaultLocale()` of the lowered `NEXT_PUBLIC_DEFAULT_LOCALE`: Chinese
      exactly when it begins with `zh`, English otherwise, also when unset. */
  function GetDefaultLocale(env: Option<string>): (r: Locale)
    ensures r == Zh <==> env.Some? && I18n.FoldedPrefix(env.value, 'z', 'h')
  {
    match env
    case None => En
    case Some(s) =>
      var lowered := Lower(s);
      LowerStartsWith(s, "zh");
      if lowered == "" then En
      else if StartsWith(lowered, "zh") then Zh
      else if StartsWith(lowered, "en") then En
      else En
  }

  /** The configured default locale is the browser-language reading of the same
      value, with English when that reading gives nothing. */
  lemma DefaultLocaleIsNavigatorReading(env: Option<string>)
    ensures GetDefaultLocale(env) == I18n.NormalizeNavigatorLanguage(env).GetOr(En)
  {
  }
}
