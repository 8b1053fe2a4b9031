/** The records of src/types/profile.ts: a profile row, its music embeds, the
    civil-status and sacrament keys, the background kinds and the table of
    gradient presets. */
module ProfileTypes {
  import opened Wrappers

  /** The provider tag of an embed. The declared union is spotify | youtube; the
      embeds are stored as JSON, so `Other` stands for any other stored tag.
      `EmbedTypeOf` is the only way a stored tag becomes an `EmbedType`, so the
      tag of an `Other` is never "spotify" or "youtube". */
  datatype EmbedType = Spotify | Youtube | Other(tag: string) {
    /** The tag stored in the embed's JSON `type` field. */
    function Tag(): string {
      match this
      case Spotify => "spotify"
      case Youtube => "youtube"
      case Other(t) => t
    }
  }

  /** Reads a stored embed tag. */
  function EmbedTypeOf(tag: string): (t: EmbedType)
    ensures t.Tag() == tag
    ensures t.Other? <==> tag != "spotify" && tag != "youtube"
  {
    if tag == "spotify" then Spotify else if tag == "youtube" then Youtube else Other(tag)
  }

  /** Every kind that reading can produce is read back from its own tag. */
  lemma EmbedTypeTagRoundTrip(t: EmbedType)
    requires t.Other? ==> t.tag != "spotify" && t.tag != "youtube"
    ensures EmbedTypeOf(t.Tag()) == t
  {
  }

  datatype MusicEmbed = MusicEmbed(kind: EmbedType, url: string, title: string)

  datatype CivilStatus = Solteiro | Casado | Namorando | Religioso | Seminarista | Diacono | Padre {
    /** The string stored in the `civil_status` column. */
    function Key(): string {
      match this
      case Solteiro => "solteiro"
      case Casado => "casado"
      case Namorando => "namorando"
      case Religioso => "religioso"
      case Seminarista => "seminarista"
      case Diacono => "diacono"
      case Padre => "padre"
    }
  }

  datatype Sacrament = Batismo | Confissao | Eucaristia | Crisma | Matrimonio | Ordem | Uncao {
    /** The string stored in the `sacraments` array. */
    function Key(): string {
      match this
      case Batismo => "batismo"
      case Confissao => "confissao"
      case Eucaristia => "eucaristia"
      case Crisma => "crisma"
      case Matrimonio => "matrimonio"
      case Ordem => "ordem"
      case Uncao => "uncao"
    }
  }

  /** `background_type`: gradient | custom-gradient | image | solid, plus any other
      stored text, which the display treats like `solid`. `BackgroundTypeOf` is
      the only way a stored value becomes a `BackgroundType`, so the tag of an
      `OtherBackground` is never one of the four declared values. */
  datatype BackgroundType = Gradient | CustomGradient | Image | Solid | OtherBackground(tag: string) {
    /** The text stored in the `background_type` column. */
    function Tag(): string {
      match this
      case Gradient => "gradient"
      case CustomGradient => "custom-gradient"
      case Image => "image"
      case Solid => "solid"
      case OtherBackground(t) => t
    }
  }

  /** The four values the column is declared to hold. */
  predicate IsDeclaredBackground(tag: string) {
    tag == "gradient" || tag == "custom-gradient" || tag == "image" || tag == "solid"
  }

  /** Reads the `background_type` column. */
  function BackgroundTypeOf(tag: string): (t: BackgroundType)
    ensures t.Tag() == tag
    ensures t.OtherBackground? <==> !IsDeclaredBackground(tag)
  {
    if tag == "gradient" then Gradient
    else if tag == "custom-gradient" then CustomGradient
    else if tag == "image" then Image
    else if tag == "solid" then Solid
    else OtherBackground(tag)
  }

  /** Every kind that reading can produce is read back from its own tag. */
  lemma BackgroundTypeTagRoundTrip(t: BackgroundType)
    requires t.OtherBackground? ==> !IsDeclaredBackground(t.tag)
    ensures BackgroundTypeOf(t.Tag()) == t
  {
  }

  /** One row of the `profiles` table. `backgroundOverlayOpacity` is None when the
      column is null; opacity values are kept as opaque reals. */
  datatype Profile = Profile(
    id: string,
    userId: string,
    slug: Option<string>,
    fullName: string,
    civilStatus: Option<CivilStatus>,
    parish: string,
    pastorals: seq<string>,
    baptismDate: Option<string>,
    priestName: string,
    patronSaint: string,
    saintImageUrl: string,
    inspirationQuote: string,
    quoteAuthor: string,
    biblePassage: string,
    sacraments: seq<Sacrament>,
    profileImageUrl: string,
    coverImageUrl: string,
    primaryColor: string,
    secondaryColor: string,
    backgroundType: BackgroundType,
    backgroundValue: string,
    backgroundOverlayOpacity: Option<real>,
    musicEmbeds: seq<MusicEmbed>,
    createdAt: string,
    updatedAt: string)

  /** The public link of a profile: `<origin>/p/<slug>`. */
  function PublicProfileUrl(origin: string, slug: string): (url: string)
    ensures |url| == |origin| + 3 + |slug|
    ensures url[..|origin|] == origin && url[|origin| + 3..] == slug
  {
    origin + "/p/" + slug
  }

  /** Distinct slugs give distinct links under the same origin. */
  lemma PublicProfileUrlInjective(origin: string, s1: string, s2: string)
    requires PublicProfileUrl(origin, s1) == PublicProfileUrl(origin, s2)
    ensures s1 == s2
  {
    assert s1 == PublicProfileUrl(origin, s1)[|origin| + 3..];
  }

  datatype GradientPreset = GradientPreset(name: string, value: string, colors: seq<string>)

  /** GRADIENT_PRESETS, in table order. Each value is the source's string
      literal, written in pieces so that its two colours stand apart. */
  const GradientPresets: seq<GradientPreset> := [
    GradientPreset("Roxo Celestial",
      "linear-gradient(135deg, " + "#667eea" + " 0%, " + "#764ba2" + " 100%)", ["#667eea", "#764ba2"]),
    GradientPreset("P\U{F4}r do Sol",
      "linear-gradient(135deg, " + "#f093fb" + " 0%, " + "#f5576c" + " 100%)", ["#f093fb", "#f5576c"]),
    GradientPreset("Oceano",
      "linear-gradient(135deg, " + "#4facfe" + " 0%, " + "#00f2fe" + " 100%)", ["#4facfe", "#00f2fe"]),
    GradientPreset("Floresta",
      "linear-gradient(135deg, " + "#43e97b" + " 0%, " + "#38f9d7" + " 100%)", ["#43e97b", "#38f9d7"]),
    GradientPreset("Dourado Real",
      "linear-gradient(135deg, " + "#ffd89b" + " 0%, " + "#19547b" + " 100%)", ["#ffd89b", "#19547b"]),
    GradientPreset("Aurora",
      "linear-gradient(135deg, " + "#a8edea" + " 0%, " + "#fed6e3" + " 100%)", ["#a8edea", "#fed6e3"]),
    GradientPreset("Fogo Divino",
      "linear-gradient(135deg, " + "#fa709a" + " 0%, " + "#fee140" + " 100%)", ["#fa709a", "#fee140"]),
    GradientPreset("C\U{E9}u Noturno",
      "linear-gradient(135deg, " + "#30cfd0" + " 0%, " + "#330867" + " 100%)", ["#30cfd0", "#330867"]),
    GradientPreset("Rosa M\U{ED}stico",
      "linear-gradient(135deg, " + "#ff9a9e" + " 0%, " + "#fecfef" + " 100%)", ["#ff9a9e", "#fecfef"]),
    GradientPreset("Terra Santa",
      "linear-gradient(135deg, " + "#ffecd2" + " 0%, " + "#fcb69f" + " 100%)", ["#ffecd2", "#fcb69f"])
  ]
}
