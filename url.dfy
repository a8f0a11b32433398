/** `buildPenUrl` of lib/url.ts: the CodePen address of a showcase. */
module Url {
  import opened Wrappers
  import opened Strings

  const CodepenOrigin := "https://codepen.io/"

  /** `` `https://codepen.io/${pen_user}/pen/${pen_slug}` ``. */
  function BuildPenUrl(penUser: string, penSlug: string): (r: string)
    ensures StartsWith(r, CodepenOrigin) && EndsWith(r, penSlug)
    ensures |r| == 19 + |penUser| + 5 + |penSlug|
  {
    var r := CodepenOrigin + penUser + "/pen/" + penSlug;
    assert r[..19] == CodepenOrigin;
    assert r[|r| - |penSlug|..] == penSlug;
    r
  }

  /** Reads a pen address back into its user and slug: the text after the
      origin up to the first slash is the user, and `/pen/` must follow it. */
  function ParsePenUrl(url: string): Option<(string, string)> {
    if !StartsWith(url, CodepenOrigin) then None
    else
      var rest := url[|CodepenOrigin|..];
      var cut := IndexOf(rest, '/');
      var tail := rest[cut..];
      if StartsWith(tail, "/pen/") then Some((rest[..cut], tail[5..])) else None
  }

  /** For a user name without a slash, the address reads back as the user and
      slug it was built from; so different pens get different addresses. */
  lemma ParseBuildPenUrl(penUser: string, penSlug: string)
    requires '/' !in penUser
    ensures ParsePenUrl(BuildPenUrl(penUser, penSlug)) == Some((penUser, penSlug))
  {
    var url := BuildPenUrl(penUser, penSlug);
    var rest := url[|CodepenOrigin|..];
    assert rest == penUser + "/pen/" + penSlug;
    assert rest[|penUser|] == '/';
    forall j | 0 <= j < |penUser| ensures rest[j] != '/' {
      assert rest[j] == penUser[j];
    }
    assert IndexOf(rest, '/') == |penUser|;
    assert rest[|penUser|..] == "/pen/" + penSlug;
    assert rest[..|penUser|] == penUser;
  }
}
