/** Relative-URL resolution used when a slide manifest names its pyramids and
    indices relative to the manifest's own location (app.js `resolveRelative`). */
module Url {

  /** `s.lastIndexOf("/")`: the index of the last slash, or -1 when there is none. */
  function LastIndexOfSlash(s: string): (r: int)
    ensures -1 <= r < |s|
    ensures r >= 0 ==> s[r] == '/'
    ensures forall j :: r < j < |s| ==> s[j] != '/'
  {
    if |s| == 0 then -1
    else if s[|s| - 1] == '/' then |s| - 1
    else LastIndexOfSlash(s[..|s| - 1])
  }

  /** The directory of a URL: everything up to and including its last slash,
      or the empty string when it has none. */
  function Directory(url: string): (d: string)
    ensures d <= url
    ensures d == [] || d[|d| - 1] == '/'
    ensures forall j :: |d| <= j < |url| ==> url[j] != '/'
  {
    url[..LastIndexOfSlash(url) + 1]
  }

  /** `rel.replace(/^\.\//, "")`: drops one leading "./" if there is one. */
  function StripDotSlash(rel: string): string {
    if |rel| >= 2 && rel[0] == '.' && rel[1] == '/' then rel[2..] else rel
  }

  /** A path is treated as relative exactly when it starts with '.'. */
  predicate IsRelative(rel: string) {
    |rel| > 0 && rel[0] == '.'
  }

  /** `resolveRelative(baseUrl, rel)`. An empty `rel` and one that does not
      start with '.' come back unchanged; otherwise the directory of `baseUrl`
      is prepended to `rel` with one leading "./" removed. No other path
      normalisation takes place. */
  function ResolveRelative(baseUrl: string, rel: string): (r: string)
    ensures !IsRelative(rel) ==> r == rel
    ensures IsRelative(rel) ==> Directory(baseUrl) <= r && r[|Directory(baseUrl)|..] == StripDotSlash(rel)
  {
    if |rel| == 0 then rel
    else if rel[0] != '.' then rel
    else Directory(baseUrl) + StripDotSlash(rel)
  }

  /** `Directory` is the only prefix of a URL that is empty or ends in a slash
      and leaves no slash after it: an independent characterisation of the
      `lastIndexOf` slice. */
  lemma DirectoryUnique(url: string, d: string)
    requires d <= url
    requires d == [] || d[|d| - 1] == '/'
    requires forall j :: |d| <= j < |url| ==> url[j] != '/'
    ensures d == Directory(url)
  {
    var e := Directory(url);
    assert |e| == 0 || url[|e| - 1] == '/';
    assert |d| == 0 || url[|d| - 1] == '/';
    assert |d| == |e|;
  }

  /** Resolving against a base URL that has no slash yields the stripped path alone. */
  lemma ResolveAgainstBareName(baseUrl: string, rel: string)
    requires '/' !in baseUrl
    requires IsRelative(rel)
    ensures ResolveRelative(baseUrl, rel) == StripDotSlash(rel)
  {
    DirectoryUnique(baseUrl, []);
  }

  /** "./x" resolves to the manifest's directory followed by "x". */
  lemma ResolveDotSlash(baseUrl: string, rest: string)
    ensures ResolveRelative(baseUrl, "./" + rest) == Directory(baseUrl) + rest
  {
    assert ("./" + rest)[2..] == rest;
  }

  /** "../x" is not normalised: the parent step is kept verbatim after the
      manifest's directory. */
  lemma ParentStepKept(baseUrl: string, rest: string)
    ensures ResolveRelative(baseUrl, "../" + rest) == Directory(baseUrl) + ("../" + rest)
  {
    var rel := "../" + rest;
    assert rel[0] == '.' && rel[1] == '.';
    assert StripDotSlash(rel) == rel;
  }

  /** Only one leading "./" is ever stripped. */
  lemma OneDotSlashStripped(baseUrl: string, rest: string)
    ensures ResolveRelative(baseUrl, "././" + rest) == Directory(baseUrl) + ("./" + rest)
  {
    var rel := "././" + rest;
    assert rel[0] == '.' && rel[1] == '/';
    assert rel[2..] == "./" + rest;
  }
}
