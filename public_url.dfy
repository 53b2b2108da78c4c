/** `publicUrl` (src/lib/utils.ts): the URL of a file served from the site's
    public folder, under the base path the site was built for. The base
    (`import.meta.env.BASE_URL`, fixed at build time) is a parameter. */
module PublicUrl {

  /** A base that begins and ends with "/". */
  predicate WellFormedBase(base: string) {
    |base| > 0 && base[0] == '/' && base[|base| - 1] == '/'
  }

  /** A run of `n` slashes. */
  function Slashes(n: nat): (s: string)
    ensures |s| == n && forall i | 0 <= i < n :: s[i] == '/'
  {
    seq(n, _ => '/')
  }

  /** An empty base becomes "/"; a base without a leading or trailing slash
      gets one added at that end. */
  function NormalizeBase(baseUrl: string): (base: string)
    ensures WellFormedBase(base)
    ensures baseUrl == "" ==> base == "/"
    ensures WellFormedBase(baseUrl) ==> base == baseUrl
    ensures |base| <= |baseUrl| + 2
  {
    var configured := if baseUrl == "" then "/" else baseUrl;
    var rooted := if configured[0] == '/' then configured else "/" + configured;
    var base := if rooted[|rooted| - 1] == '/' then rooted else rooted + "/";
    base
  }

  /** `path.replace(/^\/+/, "")`: drops every leading slash. */
  function StripLeadingSlashes(path: string): (rest: string)
    ensures |rest| <= |path|
    ensures path == Slashes(|path| - |rest|) + rest
    ensures rest == "" || rest[0] != '/'
  {
    if path != "" && path[0] == '/' then
      var rest := StripLeadingSlashes(path[1..]);
      assert path == ['/'] + path[1..];
      rest
    else
      path
  }

  function PublicUrl(baseUrl: string, path: string): (url: string)
    ensures url != "" && url[0] == '/'
    ensures var base := NormalizeBase(baseUrl);
            && |base| <= |url|
            && url[..|base|] == base
            && url[|base| - 1] == '/'
            && (|url| > |base| ==> url[|base|] != '/')
            && |url| - |base| <= |path|
            && path == Slashes(|path| - (|url| - |base|)) + url[|base|..]
  {
    NormalizeBase(baseUrl) + StripLeadingSlashes(path)
  }

  /** Slashes put in front of a path are stripped with its own. */
  lemma {:induction false} StripSlashesPrefix(path: string, n: nat)
    ensures StripLeadingSlashes(Slashes(n) + path) == StripLeadingSlashes(path)
  {
    if n > 0 {
      StripSlashesPrefix(path, n - 1);
      var padded := Slashes(n) + path;
      assert padded[0] == '/';
      assert padded[1..] == Slashes(n - 1) + path;
    } else {
      assert Slashes(n) + path == path;
    }
  }

  /** How many slashes lead `path` changes nothing: "/foo", "foo" and
      "///foo" give the same URL. */
  lemma LeadingSlashesIgnored(baseUrl: string, path: string, n: nat)
    ensures PublicUrl(baseUrl, Slashes(n) + path) == PublicUrl(baseUrl, path)
  {
    StripSlashesPrefix(path, n);
  }

  /** Under the root base "/" the URL of a URL is the URL itself. */
  lemma PublicUrlIdempotentAtRoot(path: string)
    ensures PublicUrl("/", PublicUrl("/", path)) == PublicUrl("/", path)
  {
    var rest := StripLeadingSlashes(path);
    assert PublicUrl("/", path) == "/" + rest;
    assert ("/" + rest)[1..] == rest;
  }
}
