/** src/components/MusicEmbed.tsx: the Spotify and YouTube id extractors, the
    Spotify kind classifier and the choice between an iframe, the invalid-URL
    placeholder and nothing.

    Each extractor pattern has the shape `<literal>([class]+)` and is applied
    with `String.prototype.match` (no `g` flag): the match starts at the leftmost
    position where the literal is followed by at least one class character, and
    the greedy group takes the longest run of class characters there. */
module MusicEmbed {
  import opened Wrappers
  import opened Text
  import opened ProfileTypes

  /** `[a-zA-Z0-9]` (Spotify) and `[a-zA-Z0-9_-]` (YouTube). */
  datatype CharClass = Alnum | AlnumDashUnderscore

  predicate InClass(cls: CharClass, c: char) {
    var alnum := 'a' <= c <= 'z' || 'A' <= c <= 'Z' || '0' <= c <= '9';
    match cls
    case Alnum => alnum
    case AlnumDashUnderscore => alnum || c == '_' || c == '-'
  }

  datatype Pattern = Pattern(prefix: string, cls: CharClass)

  const SpotifyTrack := Pattern("spotify.com/track/", Alnum)
  const SpotifyPlaylist := Pattern("spotify.com/playlist/", Alnum)
  const SpotifyAlbum := Pattern("spotify.com/album/", Alnum)
  const SpotifyPatterns: seq<Pattern> := [SpotifyTrack, SpotifyPlaylist, SpotifyAlbum]

  const YoutubeWatch := Pattern("youtube.com/watch?v=", AlnumDashUnderscore)
  const YoutubeShort := Pattern("youtu.be/", AlnumDashUnderscore)
  const YoutubeEmbed := Pattern("youtube.com/embed/", AlnumDashUnderscore)
  const YoutubePatterns: seq<Pattern> := [YoutubeWatch, YoutubeShort, YoutubeEmbed]

  /** The pattern matches with its literal starting at position `i`. */
  predicate MatchesAt(url: string, p: Pattern, i: nat) {
    && i + |p.prefix| < |url|
    && url[i..i + |p.prefix|] == p.prefix
    && InClass(p.cls, url[i + |p.prefix|])
  }

  /** The longest prefix of `s` made of class characters. */
  function LeadingRun(s: string, cls: CharClass): (r: string)
    ensures |r| <= |s| && r == s[..|r|]
    ensures forall k :: 0 <= k < |r| ==> InClass(cls, r[k])
    ensures |r| < |s| ==> !InClass(cls, s[|r|])
  {
    if |s| > 0 && InClass(cls, s[0]) then [s[0]] + LeadingRun(s[1..], cls) else ""
  }

  /** The leftmost match position at or after `i`. */
  function FirstMatchFrom(url: string, p: Pattern, i: nat): (r: Option<nat>)
    requires i <= |url|
    ensures r.Some? ==> i <= r.value && MatchesAt(url, p, r.value)
    ensures r.Some? ==> forall j: nat :: i <= j < r.value ==> !MatchesAt(url, p, j)
    ensures r.None? ==> forall j: nat :: i <= j ==> !MatchesAt(url, p, j)
    decreases |url| - i
  {
    if MatchesAt(url, p, i) then Some(i)
    else if i == |url| then None
    else FirstMatchFrom(url, p, i + 1)
  }

  /** `url.match(pattern)?.[1]`. */
  function MatchGroup(url: string, p: Pattern): Option<string> {
    var first := FirstMatchFrom(url, p, 0);
    if first.None? then None else Some(LeadingRun(url[first.value + |p.prefix|..], p.cls))
  }

  /** The group is null iff the pattern matches nowhere. */
  lemma MatchGroupNoneIff(url: string, p: Pattern)
    ensures MatchGroup(url, p).None? <==> forall i: nat :: !MatchesAt(url, p, i)
  {
    var first := FirstMatchFrom(url, p, 0);
    if first.Some? {
      assert MatchesAt(url, p, first.value);
    }
  }

  /** `i` is where `match` finds the pattern: a match, and none further left. */
  predicate IsLeftmostMatch(url: string, p: Pattern, i: nat) {
    MatchesAt(url, p, i) && forall j: nat :: j < i ==> !MatchesAt(url, p, j)
  }

  /** A found group is the longest class run after the literal of the
      leftmost match. */
  lemma MatchGroupLeftmost(url: string, p: Pattern)
    requires MatchGroup(url, p).Some?
    ensures exists i: nat :: IsLeftmostMatch(url, p, i)
                             && MatchGroup(url, p).value == LeadingRun(url[i + |p.prefix|..], p.cls)
  {
    var i := FirstMatchFrom(url, p, 0).value;
    assert IsLeftmostMatch(url, p, i);
  }

  /** A found group is a non-empty run of class characters. */
  lemma MatchGroupIsRun(url: string, p: Pattern)
    requires MatchGroup(url, p).Some?
    ensures |MatchGroup(url, p).value| > 0
    ensures forall k :: 0 <= k < |MatchGroup(url, p).value| ==> InClass(p.cls, MatchGroup(url, p).value[k])
  {
    var i := FirstMatchFrom(url, p, 0).value;
    var rest := url[i + |p.prefix|..];
    assert InClass(p.cls, rest[0]);
  }

  /** The index of the first pattern at or after `k` that matches anywhere. */
  function FirstHitFrom(url: string, patterns: seq<Pattern>, k: nat): (r: Option<nat>)
    requires k <= |patterns|
    ensures r.Some? ==> k <= r.value < |patterns| && MatchGroup(url, patterns[r.value]).Some?
    ensures r.Some? ==> forall k': nat :: k <= k' < r.value ==> MatchGroup(url, patterns[k']).None?
    ensures r.None? ==> forall k': nat :: k <= k' < |patterns| ==> MatchGroup(url, patterns[k']).None?
    decreases |patterns| - k
  {
    if k == |patterns| then None
    else if MatchGroup(url, patterns[k]).Some? then Some(k)
    else FirstHitFrom(url, patterns, k + 1)
  }

  /** The patterns tried in order; the first one that matches anywhere wins. */
  function FirstGroup(url: string, patterns: seq<Pattern>): (r: Option<string>)
    ensures r.None? <==> forall k: nat :: k < |patterns| ==> MatchGroup(url, patterns[k]).None?
    ensures r.Some? ==> exists k: nat :: && k < |patterns|
                                         && MatchGroup(url, patterns[k]) == r
                                         && forall k': nat :: k' < k ==> MatchGroup(url, patterns[k']).None?
  {
    var hit := FirstHitFrom(url, patterns, 0);
    if hit.None? then None else MatchGroup(url, patterns[hit.value])
  }

  /** `extractSpotifyId`. */
  function ExtractSpotifyId(url: string): Option<string> {
    FirstGroup(url, SpotifyPatterns)
  }

  /** `extractYoutubeId`. */
  function ExtractYoutubeId(url: string): Option<string> {
    FirstGroup(url, YoutubePatterns)
  }

  /** A Spotify id is a non-empty run of [a-zA-Z0-9] found by one of the three
      patterns, the earlier patterns matching nowhere; it is null iff no
      pattern matches anywhere in the URL. */
  lemma SpotifyIdShape(url: string)
    ensures ExtractSpotifyId(url).None? <==>
              MatchGroup(url, SpotifyTrack).None? && MatchGroup(url, SpotifyPlaylist).None?
              && MatchGroup(url, SpotifyAlbum).None?
    ensures ExtractSpotifyId(url).Some? ==>
              && |ExtractSpotifyId(url).value| > 0
              && forall k :: 0 <= k < |ExtractSpotifyId(url).value| ==> InClass(Alnum, ExtractSpotifyId(url).value[k])
    ensures MatchGroup(url, SpotifyTrack).Some? ==> ExtractSpotifyId(url) == MatchGroup(url, SpotifyTrack)
    ensures MatchGroup(url, SpotifyTrack).None? && MatchGroup(url, SpotifyPlaylist).Some? ==>
              ExtractSpotifyId(url) == MatchGroup(url, SpotifyPlaylist)
    ensures MatchGroup(url, SpotifyTrack).None? && MatchGroup(url, SpotifyPlaylist).None? ==>
              ExtractSpotifyId(url) == MatchGroup(url, SpotifyAlbum)
  {
    var ps := SpotifyPatterns;
    assert ps[0] == SpotifyTrack && ps[1] == SpotifyPlaylist && ps[2] == SpotifyAlbum;
    assert ps[1..][0] == SpotifyPlaylist && ps[1..][1..] == [SpotifyAlbum];
    if ExtractSpotifyId(url).Some? {
      var k: nat :| k < |ps| && MatchGroup(url, ps[k]) == ExtractSpotifyId(url);
      MatchGroupIsRun(url, ps[k]);
    }
  }

  /** A YouTube id is a non-empty run of [a-zA-Z0-9_-], the patterns being tried
      in the order `watch?v=`, `youtu.be/`, `/embed/`; it is null iff none matches. */
  lemma YoutubeIdShape(url: string)
    ensures ExtractYoutubeId(url).None? <==>
              MatchGroup(url, YoutubeWatch).None? && MatchGroup(url, YoutubeShort).None?
              && MatchGroup(url, YoutubeEmbed).None?
    ensures ExtractYoutubeId(url).Some? ==>
              && |ExtractYoutubeId(url).value| > 0
              && forall k :: 0 <= k < |ExtractYoutubeId(url).value| ==>
                   InClass(AlnumDashUnderscore, ExtractYoutubeId(url).value[k])
    ensures MatchGroup(url, YoutubeWatch).Some? ==> ExtractYoutubeId(url) == MatchGroup(url, YoutubeWatch)
    ensures MatchGroup(url, YoutubeWatch).None? && MatchGroup(url, YoutubeShort).Some? ==>
              ExtractYoutubeId(url) == MatchGroup(url, YoutubeShort)
    ensures MatchGroup(url, YoutubeWatch).None? && MatchGroup(url, YoutubeShort).None? ==>
              ExtractYoutubeId(url) == MatchGroup(url, YoutubeEmbed)
  {
    var ps := YoutubePatterns;
    assert ps[0] == YoutubeWatch && ps[1] == YoutubeShort && ps[2] == YoutubeEmbed;
    assert ps[1..][0] == YoutubeShort && ps[1..][1..] == [YoutubeEmbed];
    if ExtractYoutubeId(url).Some? {
      var k: nat :| k < |ps| && MatchGroup(url, ps[k]) == ExtractYoutubeId(url);
      MatchGroupIsRun(url, ps[k]);
    }
  }

  /** The Spotify content kind, the path segment of the embed URL. */
  datatype SpotifyKind = Track | Playlist | Album {
    function Segment(): string {
      match this
      case Track => "track"
      case Playlist => "playlist"
      case Album => "album"
    }
  }

  /** `getSpotifyType`: the first of `/track/`, `/playlist/`, `/album/` the URL
      contains, and track when it contains none. */
  function GetSpotifyType(url: string): SpotifyKind {
    if Includes(url, "/track/") then Track
    else if Includes(url, "/playlist/") then Playlist
    else if Includes(url, "/album/") then Album
    else Track
  }

  /** Wherever a pattern matches, every tail of its literal occurs in the URL. */
  lemma MatchIncludesLiteralTail(url: string, p: Pattern, m: nat)
    requires MatchGroup(url, p).Some? && m <= |p.prefix|
    ensures Includes(url, p.prefix[m..])
  {
    var i := FirstMatchFrom(url, p, 0).value;
    assert url[i + m..][..|p.prefix| - m] == url[i..i + |p.prefix|][m..];
    IncludesAt(url, p.prefix[m..], i + m);
  }

  /** The classifier agrees with a pattern that matches, unless an earlier
      segment occurs elsewhere in the URL; with no segment present the kind is track. */
  lemma SpotifyTypeAgreesWithMatch(url: string)
    ensures MatchGroup(url, SpotifyTrack).Some? ==> GetSpotifyType(url) == Track
    ensures MatchGroup(url, SpotifyPlaylist).Some? && !Includes(url, "/track/") ==> GetSpotifyType(url) == Playlist
    ensures MatchGroup(url, SpotifyAlbum).Some? && !Includes(url, "/track/") && !Includes(url, "/playlist/") ==>
              GetSpotifyType(url) == Album
    ensures !Includes(url, "/playlist/") && !Includes(url, "/album/") ==> GetSpotifyType(url) == Track
  {
    assert SpotifyTrack.prefix[11..] == "/track/";
    assert SpotifyPlaylist.prefix[11..] == "/playlist/";
    assert SpotifyAlbum.prefix[11..] == "/album/";
    if MatchGroup(url, SpotifyTrack).Some? {
      MatchIncludesLiteralTail(url, SpotifyTrack, 11);
    }
    if MatchGroup(url, SpotifyPlaylist).Some? {
      MatchIncludesLiteralTail(url, SpotifyPlaylist, 11);
    }
    if MatchGroup(url, SpotifyAlbum).Some? {
      MatchIncludesLiteralTail(url, SpotifyAlbum, 11);
    }
  }

  /** What the component renders for one embed. */
  datatype Rendered = Iframe(src: string) | InvalidUrl(message: string) | Nothing

  const SpotifyEmbedBase := "https://open.spotify.com/embed/"
  const SpotifyEmbedQuery := "?utm_source=generator&theme=0"
  const YoutubeEmbedBase := "https://www.youtube.com/embed/"

  /** `MusicEmbed({ embed })`, without the title header and the remove button. */
  function RenderEmbed(embed: MusicEmbed): (r: Rendered)
    ensures r.Nothing? <==> embed.kind.Other?
    ensures r.InvalidUrl? <==>
              (embed.kind == Spotify && ExtractSpotifyId(embed.url).None?)
              || (embed.kind == Youtube && ExtractYoutubeId(embed.url).None?)
    ensures embed.kind == Spotify && ExtractSpotifyId(embed.url).Some? ==>
              r == Iframe(SpotifyEmbedBase + GetSpotifyType(embed.url).Segment() + "/"
                          + ExtractSpotifyId(embed.url).value + SpotifyEmbedQuery)
    ensures embed.kind == Youtube && ExtractYoutubeId(embed.url).Some? ==>
              r == Iframe(YoutubeEmbedBase + ExtractYoutubeId(embed.url).value)
  {
    match embed.kind
    case Spotify =>
      (match ExtractSpotifyId(embed.url)
       case None => InvalidUrl("URL do Spotify inv\U{E1}lida")
       case Some(id) => Iframe(SpotifyEmbedBase + GetSpotifyType(embed.url).Segment() + "/" + id + SpotifyEmbedQuery))
    case Youtube =>
      (match ExtractYoutubeId(embed.url)
       case None => InvalidUrl("URL do YouTube inv\U{E1}lida")
       case Some(id) => Iframe(YoutubeEmbedBase + id))
    case Other(_) => Nothing
  }

  /** The id in a Spotify src sits right after the base and the kind segment. */
  lemma SpotifySrcLayout(seg: string, id: string)
    ensures var src := SpotifyEmbedBase + seg + "/" + id + SpotifyEmbedQuery;
            && StartsWith(src, SpotifyEmbedBase)
            && src[|SpotifyEmbedBase| + |seg| + 1..|SpotifyEmbedBase| + |seg| + 1 + |id|] == id
  {
    var src := SpotifyEmbedBase + seg + "/" + id + SpotifyEmbedQuery;
    assert src[..|SpotifyEmbedBase|] == SpotifyEmbedBase;
  }

  /** An iframe's src always starts with the provider's embed base, and the id
      the extractor found sits right after the kind segment (Spotify) or the
      base (YouTube), so it can be read back from the src. */
  lemma IframeCarriesId(embed: MusicEmbed)
    requires RenderEmbed(embed).Iframe?
    ensures var src := RenderEmbed(embed).src;
            || (embed.kind == Spotify
                && StartsWith(src, SpotifyEmbedBase)
                && var seg := GetSpotifyType(embed.url).Segment();
                   var id := ExtractSpotifyId(embed.url).value;
                   src[|SpotifyEmbedBase| + |seg| + 1..|SpotifyEmbedBase| + |seg| + 1 + |id|] == id)
            || (embed.kind == Youtube
                && StartsWith(src, YoutubeEmbedBase)
                && src[|YoutubeEmbedBase|..] == ExtractYoutubeId(embed.url).value)
  {
    if embed.kind == Spotify {
      SpotifySrcLayout(GetSpotifyType(embed.url).Segment(), ExtractSpotifyId(embed.url).value);
    } else {
      var src := RenderEmbed(embed).src;
      assert src[..|YoutubeEmbedBase|] == YoutubeEmbedBase;
    }
  }
}
