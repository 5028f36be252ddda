/**
 * `resolveImageUrl`, written identically in the offer toast and the active
 * assignment card: absolute http(s) URLs pass through, anything else is
 * joined onto the configured server URL with exactly one slash.
 */
module ImageUrl {
  import opened Options
  import opened JsString

  /** `/^https?:\/\//i`: the text starts with "http://" or "https://" in any letter case. */
  predicate IsAbsoluteHttp(u: string) {
    StartsWithIgnoringCase(u, "http://") || StartsWithIgnoringCase(u, "https://")
  }

  /**
   * `serverUrl` is `NEXT_PUBLIC_SERVER_URL` (absent counts as empty); `u` is
   * the image reference from the request.
   */
  function Resolve(serverUrl: Option<string>, u: Option<string>): (r: Option<string>)
    ensures r.None? <==> u.None? || u.value == []
    ensures u.Some? && IsAbsoluteHttp(u.value) ==> r == u
    ensures r.Some? && !IsAbsoluteHttp(u.value) ==> '/' in r.value
  {
    if u.None? || u.value == [] then None
    else if IsAbsoluteHttp(u.value) then u
    else Some(Join(serverUrl, u.value))
  }

  /** `${base}/${path}` with the base's trailing and the path's leading slashes removed. */
  function Join(serverUrl: Option<string>, u: string): (r: string)
    ensures '/' in r
  {
    var base := StripTrailingSlashes(serverUrl.GetOr(""));
    var path := StripLeadingSlashes(u);
    assert (base + "/" + path)[|base|] == '/';
    base + "/" + path
  }

  /**
   * A relative reference is the server URL without its trailing slashes, one
   * '/', and the reference without its leading slashes; the joint holds
   * exactly one slash and nothing but slashes is dropped.
   */
  lemma ResolveJoinsWithOneSlash(serverUrl: Option<string>, u: string)
    requires u != [] && !IsAbsoluteHttp(u)
    ensures var base := serverUrl.GetOr("");
            var b := StripTrailingSlashes(base);
            var p := StripLeadingSlashes(u);
            && Resolve(serverUrl, Some(u)) == Some(b + "/" + p)
            && base == b + Slashes(|base| - |b|)
            && u == Slashes(|u| - |p|) + p
            && (b == [] || b[|b| - 1] != '/')
            && (p == [] || p[0] != '/')
  {
    StripTrailingSlashesSplits(serverUrl.GetOr(""));
    StripLeadingSlashesSplits(u);
  }

  /** A text starting with '/' is never an absolute http(s) URL. */
  lemma SlashFirstIsRelative(u: string)
    requires u != [] && u[0] == '/'
    ensures !IsAbsoluteHttp(u)
  {
    assert !SameIgnoringCase(u[0], 'h');
  }

  /**
   * How many slashes lead a relative reference does not matter: one or more
   * give the same URL, and so does none when the rest is itself relative.
   */
  lemma LeadingSlashCountIrrelevant(serverUrl: Option<string>, k: nat, u: string)
    requires k >= 1
    ensures Resolve(serverUrl, Some(Slashes(k) + u)) == Resolve(serverUrl, Some("/" + u))
    ensures u != [] && !IsAbsoluteHttp(u) ==> Resolve(serverUrl, Some(Slashes(k) + u)) == Resolve(serverUrl, Some(u))
  {
    var many := Slashes(k) + u;
    var one := "/" + u;
    assert many[0] == '/';
    SlashFirstIsRelative(many);
    SlashFirstIsRelative(one);
    StripLeadingSlashesAbsorbs(k, u);
    assert one == Slashes(1) + u;
    StripLeadingSlashesAbsorbs(1, u);
    assert Join(serverUrl, many) == Join(serverUrl, one);
  }
}
