/**
 Conversion of a Spotify track URI (`spotify:track:<id>`) into the web
 link `https://open.spotify.com/track/<id>` (`uri_to_url`).
 */
module SpotifyUri {
  import opened Text
  import opened Frame

  const TrackPrefix: string := "spotify:track:"
  const UrlPrefix: string := "https://open.spotify.com/track/"

  /** Length of the run of `[A-Za-z0-9]` characters at the front of `s`. */
  function AlnumRun(s: string): (n: nat)
    ensures n <= |s|
    ensures forall i :: 0 <= i < n ==> IsAlnum(s[i])
    ensures n < |s| ==> !IsAlnum(s[n])
  {
    if |s| > 0 && IsAlnum(s[0]) then 1 + AlnumRun(s[1..]) else 0
  }

  /**
   `re.match(r"spotify:track:([A-Za-z0-9]+)", uri.strip())`: the match is
   anchored at the start only, so trailing text after the identifier is
   ignored; a missing cell (not a `str`) gives the empty link.
   */
  function UriToUrl(c: Cell): (r: string)
    ensures c.NA? ==> r == ""
    ensures r != "" <==> c.Str? && var u := Strip(c.s);
              StartsWith(u, TrackPrefix) && |u| > |TrackPrefix| && IsAlnum(u[|TrackPrefix|])
    ensures r != "" ==> StartsWith(r, UrlPrefix) && var u := Strip(c.s); var id := r[|UrlPrefix|..];
              && |id| > 0 && (forall i :: 0 <= i < |id| ==> IsAlnum(id[i]))
              && StartsWith(u, TrackPrefix + id)
              && (|u| == |TrackPrefix| + |id| || !IsAlnum(u[|TrackPrefix| + |id|]))
  {
    match c
    case NA => ""
    case Str(s) => UrlOf(Strip(s))
  }

  /** The link for already-stripped text. */
  function UrlOf(u: string): (r: string)
    ensures r != "" <==> StartsWith(u, TrackPrefix) && |u| > |TrackPrefix| && IsAlnum(u[|TrackPrefix|])
    ensures r != "" ==> StartsWith(r, UrlPrefix) && var id := r[|UrlPrefix|..];
              && |id| > 0 && (forall i :: 0 <= i < |id| ==> IsAlnum(id[i]))
              && StartsWith(u, TrackPrefix + id)
              && (|u| == |TrackPrefix| + |id| || !IsAlnum(u[|TrackPrefix| + |id|]))
  {
    if StartsWith(u, TrackPrefix) then
      var rest := u[|TrackPrefix|..];
      var n := AlnumRun(rest);
      if n > 0 then
        var id := rest[..n];
        assert u[..|TrackPrefix| + n] == TrackPrefix + id;
        assert (UrlPrefix + id)[|UrlPrefix|..] == id;
        UrlPrefix + id
      else ""
    else ""
  }

  /**
   A well-formed URI, with any trailing text that does not continue the
   identifier, yields the link to exactly that identifier.
   */
  lemma UriRoundTrip(id: string, junk: string)
    requires |id| > 0 && forall i :: 0 <= i < |id| ==> IsAlnum(id[i])
    requires |junk| > 0 ==> !IsAlnum(junk[0])
    ensures UriToUrl(Str(TrackPrefix + id + junk)) == UrlPrefix + id
  {
    var p := TrackPrefix + id;
    assert p[0] == 's' && p[|p| - 1] == id[|id| - 1];
    StripAnchored(p, junk);
    var u := Strip(p + junk);
    UrlOfAnchored(u, id, junk);
  }

  /** Stripped text made of the prefix, the identifier and a non-identifier tail. */
  lemma UrlOfAnchored(u: string, id: string, junk: string)
    requires |id| > 0 && forall i :: 0 <= i < |id| ==> IsAlnum(id[i])
    requires |junk| > 0 ==> !IsAlnum(junk[0])
    requires var p := TrackPrefix + id; |p| <= |u| <= |p| + |junk| && u == (p + junk)[..|u|]
    ensures UrlOf(u) == UrlPrefix + id
  {
    var p := TrackPrefix + id;
    var rest := u[|TrackPrefix|..];
    assert u[..|p|] == p;
    var tail := u[|p|..];
    assert rest == id + tail;
    assert |tail| > 0 ==> tail[0] == (p + junk)[|p|] == junk[0];
    AlnumRunOf(id, tail);
    assert rest[..|id|] == id;
  }

  /** Text that begins and ends with non-whitespace survives stripping as a prefix. */
  lemma StripAnchored(p: string, junk: string)
    requires |p| > 0 && !IsSpace(p[0]) && !IsSpace(p[|p| - 1])
    ensures var u := Strip(p + junk); |u| >= |p| && u == (p + junk)[..|u|]
  {
    var s := p + junk;
    assert LeadingSpaces(s) == 0;
    assert !IsSpace(s[|p| - 1]);
  }

  /** The identifier run stops exactly where the identifier ends. */
  lemma {:induction false} AlnumRunOf(id: string, tail: string)
    requires forall i :: 0 <= i < |id| ==> IsAlnum(id[i])
    requires |tail| > 0 ==> !IsAlnum(tail[0])
    ensures AlnumRun(id + tail) == |id|
  {
    if |id| > 0 {
      assert (id + tail)[1..] == id[1..] + tail;
      AlnumRunOf(id[1..], tail);
    } else {
      assert id + tail == tail;
    }
  }

  /** Text that, once stripped, does not start with the track prefix gives the empty link. */
  lemma MalformedUri(c: Cell)
    requires c.Str? && !StartsWith(Strip(c.s), TrackPrefix)
    ensures UriToUrl(c) == ""
  {
  }

  /** `"not-a-uri"` is such text: its link is empty. */
  lemma NotAUri(c: Cell)
    requires c == Str("not-a-uri")
    ensures UriToUrl(c) == ""
  {
    StripIdentity(c.s);
    MalformedUri(c);
  }
}
