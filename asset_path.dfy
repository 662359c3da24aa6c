/**
 * The page's asset-path resolver (`getAssetPath`): a logical asset path such
 * as "/portfolio/Vitalik/N1.jpg" becomes a URL under the deployment base
 * (the bundler's BASE_URL, "/" locally, "/Portfolio/" on a sub-path). The
 * base is a parameter here; the page reads it from the build environment.
 * No percent-encoding is done: spaces and "%20" pass through verbatim.
 */
module AssetPath {
  import opened Wrappers

  predicate StartsWithSlash(s: string) { |s| > 0 && s[0] == '/' }

  predicate EndsWithSlash(s: string) { |s| > 0 && s[|s| - 1] == '/' }

  /** `BASE_URL || '/'`: an absent or empty base falls back to the root. */
  function BaseOrRoot(baseUrl: Option<string>): (b: string)
    ensures b != ""
    ensures baseUrl.Some? && baseUrl.value != "" ==> b == baseUrl.value
    ensures baseUrl.None? || baseUrl.value == "" ==> b == "/"
  {
    match baseUrl
    case Some(s) => if s != "" then s else "/"
    case None => "/"
  }

  /** The base ending in '/': the base itself when it already does, else with one '/' appended. */
  function NormalizeBase(base: string): (nb: string)
    ensures EndsWithSlash(nb)
    ensures base <= nb && |nb| <= |base| + 1
    ensures EndsWithSlash(base) ==> nb == base
  {
    if EndsWithSlash(base) then base else base + "/"
  }

  /** The path without its leading '/', if it has one; exactly one '/' is removed. */
  function CleanPath(path: string): (cp: string)
    ensures StartsWithSlash(path) ==> path == "/" + cp
    ensures !StartsWithSlash(path) ==> cp == path
  {
    if StartsWithSlash(path) then path[1..] else path
  }

  /** The base the page actually prefixes: BaseOrRoot, then NormalizeBase. */
  function EffectiveBase(baseUrl: Option<string>): (nb: string)
    ensures EndsWithSlash(nb)
  {
    NormalizeBase(BaseOrRoot(baseUrl))
  }

  /**
   * `getAssetPath(path)`: the effective base followed by the path with one
   * leading '/' removed. The URL always starts with the effective base, and
   * what follows the base gives the path back.
   */
  function GetAssetPath(baseUrl: Option<string>, path: string): (url: string)
    ensures EffectiveBase(baseUrl) <= url
    ensures var rest := url[|EffectiveBase(baseUrl)|..];
      if StartsWithSlash(path) then "/" + rest == path else rest == path
  {
    EffectiveBase(baseUrl) + CleanPath(path)
  }

  /** Normalising an already normalised base changes nothing. */
  lemma NormalizeBaseIdempotent(base: string)
    ensures NormalizeBase(NormalizeBase(base)) == NormalizeBase(base)
  {
  }

  /** A base without its trailing '/' resolves exactly as the same base with it ("/base" and "/base/"). */
  lemma {:induction false} TrailingSlashIrrelevant(base: string, path: string)
    requires !EndsWithSlash(base)
    ensures GetAssetPath(Some(base), path) == GetAssetPath(Some(base + "/"), path)
  {
    assert EndsWithSlash(base + "/");
    if base == "" {
      assert BaseOrRoot(Some(base)) == "/";
      assert BaseOrRoot(Some(base + "/")) == "/";
    } else {
      assert BaseOrRoot(Some(base + "/")) == base + "/";
    }
  }

  /**
   * No doubled '/' at the join: unless the path itself starts with "//",
   * the character right after the base is not '/'.
   */
  lemma {:induction false} NoSlashAtJoin(baseUrl: Option<string>, path: string)
    requires !(|path| >= 2 && path[0] == '/' && path[1] == '/')
    ensures var nb := EffectiveBase(baseUrl);
      var url := GetAssetPath(baseUrl, path);
      |url| > |nb| ==> url[|nb|] != '/'
  {
    var nb := EffectiveBase(baseUrl);
    var url := GetAssetPath(baseUrl, path);
    if |url| > |nb| {
      assert url[|nb|] == CleanPath(path)[0];
    }
  }

  /** Only one slash is removed: under the root base, "//x" stays "//x". */
  lemma DoubledSlashKept()
    ensures GetAssetPath(Some("/"), "//x") == "//x"
  {
  }

  /** For a fixed base, two paths that both start with '/' resolve to the same URL only if they are equal. */
  lemma {:induction false} DistinctAssetsDistinctUrls(baseUrl: Option<string>, p: string, q: string)
    requires StartsWithSlash(p) && StartsWithSlash(q)
    requires GetAssetPath(baseUrl, p) == GetAssetPath(baseUrl, q)
    ensures p == q
  {
    var nb := EffectiveBase(baseUrl);
    assert p == "/" + GetAssetPath(baseUrl, p)[|nb|..];
    assert q == "/" + GetAssetPath(baseUrl, q)[|nb|..];
  }

  /** The leading slash is optional: "a/b.jpg" and "/a/b.jpg" name the same URL. */
  lemma LeadingSlashOptional(baseUrl: Option<string>)
    ensures GetAssetPath(baseUrl, "a/b.jpg") == GetAssetPath(baseUrl, "/a/b.jpg")
  {
  }

  /** A base without the trailing '/', and the same base with it. */
  lemma SubPathBaseExamples()
    ensures GetAssetPath(Some("/base"), "/a/b.jpg") == "/base/a/b.jpg"
    ensures GetAssetPath(Some("/base/"), "/a/b.jpg") == "/base/a/b.jpg"
  {
    assert EffectiveBase(Some("/base")) == "/base/";
    assert EffectiveBase(Some("/base/")) == "/base/";
    assert CleanPath("/a/b.jpg") == "a/b.jpg";
  }

  /** The root base, given, empty or absent; the path without a leading '/' is kept whole. */
  lemma RootBaseExamples()
    ensures GetAssetPath(Some("/"), "a/b.jpg") == "/a/b.jpg"
    ensures GetAssetPath(Some(""), "/x.png") == "/x.png"
    ensures GetAssetPath(None, "/x.png") == "/x.png"
  {
    assert EffectiveBase(Some("/")) == "/";
    assert EffectiveBase(Some("")) == "/";
    assert EffectiveBase(None) == "/";
    assert CleanPath("/x.png") == "x.png";
  }

  /** Spaces and "%20" pass through unencoded. */
  lemma NoEncodingExample()
    ensures GetAssetPath(Some("/"), "/a b%20c.jpg") == "/a b%20c.jpg"
  {
    assert EffectiveBase(Some("/")) == "/";
    assert CleanPath("/a b%20c.jpg") == "a b%20c.jpg";
  }
}
