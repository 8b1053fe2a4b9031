/** Worked examples of the extractors on concrete URLs, with the small facts
    about matching they rest on. */
module MusicEmbedExamples {
  import opened Wrappers
  import opened Text
  import opened ProfileTypes
  import opened MusicEmbed

  /** No match starts in `[a, b)` when the literal's `k`-th character is absent
      from the positions it would occupy. */
  lemma NoMatchInRange(url: string, p: Pattern, k: nat, a: nat, b: nat)
    requires k < |p.prefix| && a <= b && b + k <= |url|
    requires forall m :: a + k <= m < b + k ==> url[m] != p.prefix[k]
    ensures forall j: nat :: a <= j < b ==> !MatchesAt(url, p, j)
  {
    forall j: nat | a <= j < b
      ensures !MatchesAt(url, p, j)
    {
      if j + |p.prefix| < |url| {
        assert url[j..j + |p.prefix|][k] != p.prefix[k];
      }
    }
  }

  /** A pattern whose literal holds a character the URL lacks matches nowhere. */
  lemma NoMatchWithout(url: string, p: Pattern, k: nat)
    requires k < |p.prefix| && p.prefix[k] !in url
    ensures MatchGroup(url, p).None?
  {
    forall j: nat
      ensures !MatchesAt(url, p, j)
    {
      if j + |p.prefix| < |url| {
        assert url[j..j + |p.prefix|][k] == url[j + k];
      }
    }
  }

  /** A needle holding a character the text lacks is not included in it. */
  lemma {:induction false} NotIncludesWithout(s: string, needle: string, m: nat)
    requires m < |needle| && needle[m] !in s
    ensures !Includes(s, needle)
    decreases |s|
  {
    if |needle| <= |s| {
      assert s[..|needle|][m] == s[m];
    }
    if |s| > 0 {
      assert needle[m] !in s[1..];
      NotIncludesWithout(s[1..], needle, m);
    }
  }

  /** The group of the leftmost match is the run after its literal. */
  lemma GroupAt(url: string, p: Pattern, i: nat)
    requires MatchesAt(url, p, i)
    requires forall j: nat :: j < i ==> !MatchesAt(url, p, j)
    ensures MatchGroup(url, p) == Some(LeadingRun(url[i + |p.prefix|..], p.cls))
  {
    assert FirstMatchFrom(url, p, 0) == Some(i);
  }


  /** A string made only of class characters is its own leading run. */
  lemma {:induction false} LeadingRunOfRun(s: string, cls: CharClass)
    requires forall k :: 0 <= k < |s| ==> InClass(cls, s[k])
    ensures LeadingRun(s, cls) == s
    decreases |s|
  {
    if |s| > 0 {
      var tail := s[1..];
      forall k | 0 <= k < |tail| ensures InClass(cls, tail[k]) {
        assert tail[k] == s[k + 1];
      }
      LeadingRunOfRun(tail, cls);
    }
  }

  /** A character absent from three pieces is absent from their join. */
  lemma NotInPieces(ch: char, a: string, b: string, c: string)
    requires ch !in a && ch !in b && ch !in c
    ensures ch !in a + b + c
  {
  }

  /** The pieces of a URL written as scheme, literal and rest. */
  lemma Pieces(a: string, b: string, c: string)
    ensures (a + b + c)[..|a|] == a
    ensures (a + b + c)[|a|..|a| + |b|] == b
    ensures (a + b + c)[|a| + |b|..] == c
    ensures (a + b + c)[|a|..] == b + c
  {
  }

  const VideoId := "dQw4w9WgXcQ"
  const ShortUrl := "https://" + YoutubeShort.prefix + VideoId
  const WatchUrl := "https://www." + YoutubeWatch.prefix + VideoId

  lemma VideoIdRun()
    ensures LeadingRun(VideoId, AlnumDashUnderscore) == VideoId
  {
    LeadingRunOfRun(VideoId, AlnumDashUnderscore);
  }

  lemma ShortUrlGroup()
    ensures MatchGroup(ShortUrl, YoutubeShort) == Some(VideoId)
  {
    Pieces("https://", YoutubeShort.prefix, VideoId);
    NoMatchInRange(ShortUrl, YoutubeShort, 0, 0, 8);
    GroupAt(ShortUrl, YoutubeShort, 8);
    VideoIdRun();
  }

  /** `https://youtu.be/dQw4w9WgXcQ` yields `dQw4w9WgXcQ`. */
  lemma YoutuBeExample()
    ensures ExtractYoutubeId(ShortUrl) == Some(VideoId)
  {
    NoMatchWithout(ShortUrl, YoutubeWatch, 17);
    ShortUrlGroup();
    YoutubeIdShape(ShortUrl);
  }

  lemma WatchUrlGroup()
    ensures MatchGroup(WatchUrl, YoutubeWatch) == Some(VideoId)
  {
    Pieces("https://www.", YoutubeWatch.prefix, VideoId);
    NoMatchInRange(WatchUrl, YoutubeWatch, 0, 0, 12);
    GroupAt(WatchUrl, YoutubeWatch, 12);
    VideoIdRun();
  }

  /** `https://www.youtube.com/watch?v=dQw4w9WgXcQ` yields the same id. */
  lemma YoutubeWatchExample()
    ensures ExtractYoutubeId(WatchUrl) == Some(VideoId)
  {
    WatchUrlGroup();
    YoutubeIdShape(WatchUrl);
  }

  const TrackId := "abc123"
  const TrackUrl := "https://open." + SpotifyTrack.prefix + TrackId
  const PlaylistId := "xyz"
  const PlaylistUrl := "https://open." + SpotifyPlaylist.prefix + PlaylistId
  const OtherUrl := "not a link"

  lemma TrackIdRun()
    ensures LeadingRun(TrackId, Alnum) == TrackId
  {
    LeadingRunOfRun(TrackId, Alnum);
  }

  lemma TrackUrlNoEarlier()
    ensures forall j: nat :: j < 13 ==> !MatchesAt(TrackUrl, SpotifyTrack, j)
  {
    Pieces("https://open.", SpotifyTrack.prefix, TrackId);
    NoMatchInRange(TrackUrl, SpotifyTrack, 3, 0, 13);
  }

  lemma TrackUrlGroup()
    ensures MatchGroup(TrackUrl, SpotifyTrack) == Some(TrackId)
  {
    Pieces("https://open.", SpotifyTrack.prefix, TrackId);
    TrackUrlNoEarlier();
    GroupAt(TrackUrl, SpotifyTrack, 13);
    TrackIdRun();
  }

  /** `https://open.spotify.com/track/abc123` is the track `abc123`. */
  lemma SpotifyTrackExample()
    ensures ExtractSpotifyId(TrackUrl) == Some(TrackId)
    ensures GetSpotifyType(TrackUrl) == Track
  {
    TrackUrlGroup();
    SpotifyIdShape(TrackUrl);
    SpotifyTypeAgreesWithMatch(TrackUrl);
  }

  lemma PlaylistIdRun()
    ensures LeadingRun(PlaylistId, Alnum) == PlaylistId
  {
    LeadingRunOfRun(PlaylistId, Alnum);
  }

  lemma PlaylistUrlNoEarlier()
    ensures forall j: nat :: j < 13 ==> !MatchesAt(PlaylistUrl, SpotifyPlaylist, j)
  {
    Pieces("https://open.", SpotifyPlaylist.prefix, PlaylistId);
    NoMatchInRange(PlaylistUrl, SpotifyPlaylist, 3, 0, 13);
  }

  lemma PlaylistUrlGroup()
    ensures MatchGroup(PlaylistUrl, SpotifyPlaylist) == Some(PlaylistId)
  {
    Pieces("https://open.", SpotifyPlaylist.prefix, PlaylistId);
    PlaylistUrlNoEarlier();
    GroupAt(PlaylistUrl, SpotifyPlaylist, 13);
    PlaylistIdRun();
  }

  /** `https://open.spotify.com/playlist/xyz` is the playlist `xyz`. */
  lemma SpotifyPlaylistExample()
    ensures ExtractSpotifyId(PlaylistUrl) == Some(PlaylistId)
    ensures GetSpotifyType(PlaylistUrl) == Playlist
  {
    PlaylistUrlId();
    PlaylistUrlKind();
  }

  lemma PlaylistUrlId()
    ensures ExtractSpotifyId(PlaylistUrl) == Some(PlaylistId)
  {
    PlaylistUrlNoTrack();
    PlaylistUrlGroup();
    SpotifyIdShape(PlaylistUrl);
  }

  lemma PlaylistUrlHasNoK()
    ensures 'k' !in PlaylistUrl
  {
    NotInPieces('k', "https://open.", SpotifyPlaylist.prefix, PlaylistId);
  }

  /** The playlist URL has no `k`, so the track pattern matches nowhere. */
  lemma PlaylistUrlNoTrack()
    ensures MatchGroup(PlaylistUrl, SpotifyTrack).None?
  {
    PlaylistUrlHasNoK();
    assert SpotifyTrack.prefix[16] == 'k';
    NoMatchWithout(PlaylistUrl, SpotifyTrack, 16);
  }

  lemma PlaylistUrlKind()
    ensures GetSpotifyType(PlaylistUrl) == Playlist
  {
    PlaylistUrlHasNoK();
    NotIncludesWithout(PlaylistUrl, "/track/", 5);
    PlaylistUrlGroup();
    SpotifyTypeAgreesWithMatch(PlaylistUrl);
  }

  lemma OtherUrlMatchesNothing()
    ensures ExtractSpotifyId(OtherUrl).None?
  {
    assert 'f' !in OtherUrl;
    NoMatchWithout(OtherUrl, SpotifyTrack, 5);
    NoMatchWithout(OtherUrl, SpotifyPlaylist, 5);
    NoMatchWithout(OtherUrl, SpotifyAlbum, 5);
    SpotifyIdShape(OtherUrl);
  }

  /** `not a link` matches no Spotify pattern and renders the invalid-URL
      placeholder. */
  lemma SpotifyInvalidExample(title: string)
    ensures ExtractSpotifyId(OtherUrl).None?
    ensures RenderEmbed(MusicEmbed(Spotify, OtherUrl, title)) == InvalidUrl("URL do Spotify inv\U{E1}lida")
  {
    OtherUrlMatchesNothing();
  }

  const MixedUrl := SpotifyAlbum.prefix + "x" + "/playlist/"

  lemma MixedUrlNoPlaylist()
    ensures MatchGroup(MixedUrl, SpotifyPlaylist).None?
  {
    assert MixedUrl[12] != SpotifyPlaylist.prefix[12];
    assert !MatchesAt(MixedUrl, SpotifyPlaylist, 0);
    NoMatchInRange(MixedUrl, SpotifyPlaylist, 7, 1, 8);
  }

  lemma MixedUrlRun()
    ensures LeadingRun("x" + "/playlist/", Alnum) == "x"
  {
    var s := "x" + "/playlist/";
    assert s[0] == 'x' && s[1..] == "/playlist/";
    assert LeadingRun(s[1..], Alnum) == "";
  }

  lemma MixedUrlAlbumGroup()
    ensures MatchGroup(MixedUrl, SpotifyAlbum) == Some("x")
  {
    Pieces(SpotifyAlbum.prefix, "x", "/playlist/");
    GroupAt(MixedUrl, SpotifyAlbum, 0);
    MixedUrlRun();
  }

  lemma MixedUrlHasPlaylistSegment()
    ensures Includes(MixedUrl, "/playlist/")
  {
    Pieces(SpotifyAlbum.prefix, "x", "/playlist/");
    IncludesAt(MixedUrl, "/playlist/", 19);
  }

  lemma MixedUrlIsPlaylist()
    ensures GetSpotifyType(MixedUrl) == Playlist
  {
    NotIncludesWithout(MixedUrl, "/track/", 5);
    MixedUrlHasPlaylistSegment();
  }

  /** As written, the id and the kind are found independently: in
      `spotify.com/album/x/playlist/` the id comes from the album pattern while
      the kind is playlist, so the iframe asks for playlist `x`. */
  lemma SpotifyKindCanDisagreeWithId()
    ensures ExtractSpotifyId(MixedUrl) == Some("x") && MatchGroup(MixedUrl, SpotifyAlbum) == Some("x")
    ensures GetSpotifyType(MixedUrl) == Playlist
  {
    NoMatchWithout(MixedUrl, SpotifyTrack, 16);
    MixedUrlNoPlaylist();
    MixedUrlAlbumGroup();
    SpotifyIdShape(MixedUrl);
    MixedUrlIsPlaylist();
  }
}
