/** The computed parts of src/components/ProfileDisplay.tsx: which screen is
    shown while and after the profile loads, the page background chosen from
    the background kind, the dark overlay's opacity, the name heading and the
    pastoral block's heading. */
module ProfileDisplay {
  import opened Wrappers
  import opened ProfileTypes

  /** The component's state: the loading flag (initially true) and the
      profile read so far (initially none). */
  datatype DisplayState = DisplayState(loading: bool, profile: Option<Profile>)

  const InitialDisplay: DisplayState := DisplayState(true, None)

  /** `loadProfile`, with the row the query returned (`fetched`) as a
      parameter. Without a signed-in user nothing happens; otherwise a row
      found replaces the profile, no row keeps whatever was there, and
      loading ends either way. */
  function LoadProfile(st: DisplayState, user: Option<string>, fetched: Option<Profile>): (r: DisplayState)
    ensures user.None? ==> r == st
    ensures user.Some? ==> !r.loading
    ensures user.Some? && fetched.Some? ==> r.profile == fetched
    ensures user.Some? && fetched.None? ==> r.profile == st.profile
  {
    if user.None? then st
    else DisplayState(false, if fetched.Some? then fetched else st.profile)
  }

  /** The style object on the outer page. */
  datatype BackgroundStyle =
    | Background(value: string)
    | BackgroundImage(image: string, size: string, position: string, attachment: string)
    | BackgroundColor(color: string)

  /** `backgroundStyle`: a gradient kind is a `background` shorthand, an
      image is a fixed, centred, covering `url(...)`, and any other kind is a
      plain `backgroundColor`. */
  function StyleFor(kind: BackgroundType, value: string): (s: BackgroundStyle)
    ensures s.Background? <==> kind == Gradient || kind == CustomGradient
    ensures s.BackgroundImage? <==> kind == Image
    ensures s.BackgroundColor? <==> !(kind == Gradient || kind == CustomGradient || kind == Image)
    ensures s.BackgroundImage? ==> s.size == "cover" && s.position == "center" && s.attachment == "fixed"
  {
    if kind == Gradient || kind == CustomGradient then Background(value)
    else if kind == Image then BackgroundImage("url(" + value + ")", "cover", "center", "fixed")
    else BackgroundColor(value)
  }

  /** The stored value a style was built from: the image URL sits between
      `url(` and `)`. */
  function StyleValue(s: BackgroundStyle): string {
    match s
    case Background(v) => v
    case BackgroundImage(image, _, _, _) =>
      if |image| >= 5 then image[4..|image| - 1] else image
    case BackgroundColor(c) => c
  }

  /** Every style carries the stored value unchanged, so the style is
      determined by the kind's class and the value. */
  lemma StyleKeepsValue(kind: BackgroundType, value: string)
    ensures StyleValue(StyleFor(kind, value)) == value
  {
    if kind == Image {
      var image := "url(" + value + ")";
      assert image[4..|image| - 1] == value;
    }
  }

  /** Two kinds of the same class give the same style; a custom gradient is
      drawn exactly like a preset one, and an unknown kind like `solid`. */
  lemma StyleDependsOnlyOnClass(value: string, tag: string)
    ensures StyleFor(Gradient, value) == StyleFor(CustomGradient, value)
    ensures StyleFor(Solid, value) == StyleFor(OtherBackground(tag), value)
  {
  }

  const DefaultImageOverlay: real := 0.3
  const NonImageOverlay: real := 0.2

  /** `overlayOpacity`: for an image, the stored opacity, where a null or a
      zero (both falsy) reads as 0.3; for any other kind, 0.2. */
  function OverlayOpacity(kind: BackgroundType, stored: Option<real>): (o: real)
    ensures kind != Image ==> o == NonImageOverlay
    ensures kind == Image && stored.Some? && stored.value != 0.0 ==> o == stored.value
    ensures kind == Image && (stored.None? || stored == Some(0.0)) ==> o == DefaultImageOverlay
  {
    if kind != Image then NonImageOverlay
    else if stored.None? || stored.value == 0.0 then DefaultImageOverlay
    else stored.value
  }

  /** The overlay is never fully transparent, and a stored opacity matters
      only under an image background. */
  lemma OverlayNeverZero(kind: BackgroundType, stored: Option<real>, other: Option<real>)
    ensures OverlayOpacity(kind, stored) != 0.0
    ensures kind != Image ==> OverlayOpacity(kind, stored) == OverlayOpacity(kind, other)
  {
  }

  const NamePlaceholder: string := "Seu Nome"

  /** `profile.full_name || 'Seu Nome'`. */
  function ShownName(fullName: string): (shown: string)
    ensures shown != ""
    ensures fullName != "" ==> shown == fullName
    ensures fullName == "" ==> shown == NamePlaceholder
  {
    if fullName != "" then fullName else NamePlaceholder
  }

  /** Showing a shown name again changes nothing. */
  lemma ShownNameIdempotent(fullName: string)
    ensures ShownName(ShownName(fullName)) == ShownName(fullName)
  {
  }

  /** The pastoral block's heading, None when the block is hidden. */
  function PastoralHeading(pastorals: seq<string>): (h: Option<string>)
    ensures h.None? <==> |pastorals| == 0
    ensures h == Some("Pastoral") <==> |pastorals| == 1
    ensures h == Some("Pastorais") <==> |pastorals| >= 2
  {
    if |pastorals| == 0 then None
    else if |pastorals| == 1 then Some("Pastoral")
    else Some("Pastorais")
  }

  /** The heading depends only on how many pastorals there are: adding one
      to a shown block keeps it shown, and past the first it stays plural. */
  lemma PastoralHeadingGrows(pastorals: seq<string>, extra: string)
    ensures PastoralHeading(pastorals + [extra]).Some?
    ensures |pastorals| >= 1 ==> PastoralHeading(pastorals + [extra]) == Some("Pastorais")
  {
  }

  /** What the profile page draws from a loaded profile. */
  datatype ProfileView = ProfileView(
    style: BackgroundStyle,
    overlay: real,
    name: string,
    pastoralHeading: Option<string>,
    pastorals: seq<string>)

  /** The three screens: the spinner, the "Crie seu Perfil Católico" prompt
      with its create button, and the profile itself. */
  datatype Screen = Spinner | CreatePrompt | ProfilePage(view: ProfileView)

  function ViewOf(p: Profile): (v: ProfileView)
    ensures v.style == StyleFor(p.backgroundType, p.backgroundValue)
    ensures v.overlay == OverlayOpacity(p.backgroundType, p.backgroundOverlayOpacity)
    ensures v.name == ShownName(p.fullName)
    ensures v.pastoralHeading.Some? <==> |v.pastorals| > 0
    ensures v.pastorals == p.pastorals
  {
    ProfileView(StyleFor(p.backgroundType, p.backgroundValue),
                OverlayOpacity(p.backgroundType, p.backgroundOverlayOpacity),
                ShownName(p.fullName),
                PastoralHeading(p.pastorals),
                p.pastorals)
  }

  /** The component's render: the spinner while loading, the create prompt
      when loading ended without a profile, the profile page otherwise. */
  function Render(st: DisplayState): (s: Screen)
    ensures s.Spinner? <==> st.loading
    ensures s.CreatePrompt? <==> !st.loading && st.profile.None?
    ensures s.ProfilePage? <==> !st.loading && st.profile.Some?
  {
    if st.loading then Spinner
    else if st.profile.None? then CreatePrompt
    else ProfilePage(ViewOf(st.profile.value))
  }

  /** A signed-in user with no row sees the create prompt after the first
      load, and one with a row sees that row; without a user the spinner
      never goes away. */
  lemma FirstLoadScreen(user: Option<string>, fetched: Option<Profile>)
    ensures var s := Render(LoadProfile(InitialDisplay, user, fetched));
            (user.None? ==> s == Spinner)
            && (user.Some? && fetched.None? ==> s == CreatePrompt)
            && (user.Some? && fetched.Some? ==> s == ProfilePage(ViewOf(fetched.value)))
  {
  }

  /** A later load that finds no row keeps showing the profile already
      on screen. */
  lemma ReloadWithoutRowKeepsPage(st: DisplayState, user: string)
    requires !st.loading && st.profile.Some?
    ensures Render(LoadProfile(st, Some(user), None)) == Render(st)
  {
  }
}
