# Perfil Católico and the parish schedules, modelled in Dafny

The application is a React front end over a hosted Postgres database. It has two parts:

- **The Catholic profile.** A user edits a public profile: a slug-based link, a name and civil status, pastorals, colours, a page background, and music embeds. The profile is shown as a page and as a downloadable wallet card.
- **The parish schedules (escalas).** A parish office builds mass schedules: a community, a date, a time, and people with liturgical roles. It edits and deletes them within the current month and publishes them on a public page.

This project models the pure rules beneath those screens. Those rules are:

- the slug normaliser and the save guards of the profile editor;
- the Spotify and YouTube id extractors;
- the schedule roster and the write sequences for create, edit and delete;
- the public page's filter, community list, export names and PDF orientation;
- the colour, gradient, background and label helpers;
- the image-file validator.

## How the model is built

- **Records and operations.** Modules follow the source files, with three exceptions. `generateSlug` has a module of its own, apart from the rest of the editor. The worked URL examples of the music embeds also sit in a module of their own. The facts about the preset table of src/types/profile.ts are proved next to the customizer that offers the presets. A few modules (`Wrappers`, `Text`, `Roster`, `Calendar`, `EscalaStore`) hold what several files share. Records are datatypes. Operations are pure functions, except `EscalasPublicas.UniqueNames`, a method with a loop. A few functions that only assemble text (`GradientCustomizer.LinearGradient`, `GradientCustomizer.PreviewBackground`, `WalletCard.RgbText`, `MusicEmbed.MatchGroup`) carry no contract of their own; the lemmas and the callers' contracts about them state what they promise.
- **Remote tables.** The remote tables (`profiles`, `escalas`, `escala_participantes`) are sequences of rows.
- **Failing calls.** A remote call that can fail takes its failure as a parameter: a `bool`, or the set `fails` of call kinds that return an error. Each result records which calls were made, so "no remote call" is a checkable statement.
- **Calendar dates.** Dates are `Date(year, month, day)` values. `yyyy-MM-dd` is written and read by `FormatIsoDate` and `ParseIsoDate`, and the two are proved inverse.
- **Shared helpers.** The Option type (`wrappers.dfy`) and the character and decimal helpers (`text.dfy`) are shared.

Files:

| file | models |
|---|---|
| `slug.dfy` | `generateSlug` (src/components/ProfileEditor.tsx) |
| `profile_editor.dfy` | slug check, `handleSubmit`, `profileUrl` (src/components/ProfileEditor.tsx) |
| `music_embed.dfy`, `music_embed_examples.dfy` | src/components/MusicEmbed.tsx |
| `roster.dfy` | the participant list shared by both schedule tabs |
| `calendar.dfy` | `format`, `parseISO`, `startOfMonth`, `isBefore` on calendar days |
| `escala_store.dfy` | the two schedule tables and their filters |
| `escalas_tab.dfy` | src/components/dashboard/EscalasTab.tsx |
| `consultar_escalas.dfy` | src/components/dashboard/ConsultarEscalasTab.tsx |
| `escalas_publicas.dfy` | src/pages/EscalasPublicas.tsx |
| `wallet_card.dfy` | src/components/WalletCard.tsx |
| `profile_utils.dfy` | src/lib/profileUtils.ts |
| `cloudinary.dfy` | src/lib/cloudinary.ts |
| `gradient_customizer.dfy` | src/components/GradientCustomizer.tsx and the preset table |
| `profile_types.dfy` | src/types/profile.ts |
| `profile_display.dfy` | src/components/ProfileDisplay.tsx |

## Model

| member | source | states |
|---|---|---|
| Slug.CollapseRuns | src/components/ProfileEditor.tsx:63 | each maximal run of non-`[a-z0-9]` characters becomes one `-`: the output is `[a-z0-9-]` only, has no `--`, is empty iff the input is, and keeps a leading alphanumeric |
| Slug.SkipRun | src/components/ProfileEditor.tsx:63 | a separator run is skipped up to the next `[a-z0-9]` character, and a string starting with one is left alone |
| Slug.TrimHyphensMakesSlug | src/components/ProfileEditor.tsx:64 | trimming the hyphens at both ends of a `[a-z0-9-]` string without `--` yields a well-formed slug |
| Slug.GenerateSlugIsSlug | src/components/ProfileEditor.tsx:58-65 | for every text and any lower-case/decomposition table, the slug is `[a-z0-9-]` only, never starts or ends with `-` and has no two adjacent hyphens |
| Slug.GenerateSlugFixpoints | src/components/ProfileEditor.tsx:58-65 | the well-formed slugs are exactly the texts that normalising leaves unchanged |
| Slug.GenerateSlugIdempotent | src/components/ProfileEditor.tsx:58-65 | normalising a slug again gives the same slug |
| Slug.CollapseJoinsWords | src/components/ProfileEditor.tsx:63 | two words with any non-empty run of separators between them are joined by exactly one `-` |
| Slug.CollapseSeparatorRun | src/components/ProfileEditor.tsx:63 | a separator run of any length turns into a single hyphen before the next word |
| Slug.DecompositionsAreBasePlusMark | src/components/ProfileEditor.tsx:61 | every tabulated accented Latin letter decomposes to an `a`–`z` base letter followed by one combining mark of U+0300–U+036F |
| Slug.LatinFoldStripsAccents | src/components/ProfileEditor.tsx:60-62 | lower-casing, decomposing and removing marks turns an accented Latin letter, upper- or lower-case, into its base letter |
| Slug.LowerDecomposeAppend | src/components/ProfileEditor.tsx:60-61 | lower-casing and decomposing works character by character, so it distributes over joined strings |
| Slug.StripMarksAppend | src/components/ProfileEditor.tsx:62 | removing the combining marks distributes over joined strings |
| Slug.BaseLetter | src/components/ProfileEditor.tsx:60-62 | an ASCII letter or digit, or an accented Latin-1 letter, leaves exactly one character of [a-z0-9] after the first two passes |
| Slug.BaseLetters | src/components/ProfileEditor.tsx:60-62 | a word of such letters becomes, after the first two passes, the word of their base letters, of the same length |
| Slug.SeparatorsSurviveFold | src/components/ProfileEditor.tsx:60-62 | ASCII characters that are neither letters nor digits pass the first two passes unchanged |
| Slug.WordSlug | src/components/ProfileEditor.tsx:58-65 | a single word of ASCII and accented Latin-1 letters slugs to its base letters |
| Slug.TwoWordSlug | src/components/ProfileEditor.tsx:58-65 | two such words with ASCII separators between them, and optionally after them, slug to their base letters joined by one hyphen |
| Slug.SaoJoaoExample | src/components/ProfileEditor.tsx:58-65 | `São João!` slugs to `sao-joao` |
| ProfileEditor.OtherHolders | src/components/ProfileEditor.tsx:74-79 | the slug query selects exactly the rows of other users holding the slug |
| ProfileEditor.UniqueSlugsAtMostOneHolder | src/components/ProfileEditor.tsx:74-79 | under the slug uniqueness constraint that query finds at most one row |
| ProfileEditor.UniqueSlugsHolderLemma | src/components/ProfileEditor.tsx:74-81 | under the constraint, exactly one row is found iff another user holds the slug |
| ProfileEditor.CheckSlugAvailability | src/components/ProfileEditor.tsx:67-83 | a slug shorter than 3 issues no query and leaves availability unknown; otherwise availability is set, and it is false iff the query succeeds and finds exactly one row of another user with the slug, so a failed query or two holders read as available; with unique slugs and a working query it is false iff another user holds the slug |
| ProfileEditor.RowsOf | src/components/ProfileEditor.tsx:114-118 | the lookup by `user_id` selects exactly the user's rows |
| ProfileEditor.UpdateRowsOf | src/components/ProfileEditor.tsx:121-124 | the update writes the draft into every row of the user and leaves every other row as it was |
| ProfileEditor.Submit | src/components/ProfileEditor.tsx:96-141 | no user returns; a missing or short slug and a known-taken slug are refused with no remote call; unknown availability does not block; a save makes two calls, updates only after a lookup that finds one row and inserts otherwise; it fails iff the write fails or the insert re-sends the id of an existing row; a failed save changes nothing |
| ProfileEditor.InsertedRow | src/components/ProfileEditor.tsx:127-131 | the inserted row is the user's and holds the draft's content; a loaded draft keeps its own id and timestamps, a fresh one gets the database's id and time |
| ProfileEditor.SubmitKeepsIdsUnique | src/components/ProfileEditor.tsx:114-133 | whatever the lookup and the write return, a save never leaves two rows with one id |
| ProfileEditor.LoadedDraftAfterFailedLookupFails | src/components/ProfileEditor.tsx:114-138 | a loaded profile saved while the existence lookup fails is inserted again under its row's id and the save reports an error, leaving the table unchanged |
| ProfileEditor.SubmitUpdatesIffRowExists | src/components/ProfileEditor.tsx:114-133 | with at most one row per user and a working lookup, a save updates iff the user has a row, and inserts iff not and the draft's id is not taken |
| ProfileEditor.SubmitStoresDraft | src/components/ProfileEditor.tsx:114-133 | when the write itself succeeds, the save fails exactly on the key conflict of a loaded draft whose row the lookup missed; otherwise a row of the user holds the draft's slug, name, embeds and background |
| ProfileEditor.EditorProfileUrl | src/components/ProfileEditor.tsx:144 | the link is `<origin>/p/<slug>` for a set slug and empty otherwise |
| ProfileEditor.ShowsPublicLink | src/components/ProfileEditor.tsx:183 | the link is shown iff the slug is set and known to be available |
| ProfileTypes.EmbedTypeOf | src/types/profile.ts:2 | a stored embed tag is read back as its own tag, and it becomes `Other` exactly when it is neither `spotify` nor `youtube` |
| ProfileTypes.EmbedTypeTagRoundTrip | src/types/profile.ts:2 | every embed kind that reading can produce is read back from its own tag |
| ProfileTypes.BackgroundTypeOf | src/types/profile.ts:31 | a stored background type is read back as its own text, and it becomes `OtherBackground` exactly when it is none of the four declared values |
| ProfileTypes.BackgroundTypeTagRoundTrip | src/types/profile.ts:31 | every background kind that reading can produce is read back from its own text |
| ProfileTypes.PublicProfileUrl | src/components/ProfileEditor.tsx:144 | the link is the origin, then `/p/`, then the slug, at fixed positions |
| ProfileTypes.PublicProfileUrlInjective | src/components/WalletCard.tsx:15 | distinct slugs give distinct links under one origin |
| MusicEmbed.LeadingRun | src/components/MusicEmbed.tsx:17-19 | the greedy group: the longest prefix of class characters, stopping at the first other character |
| MusicEmbed.FirstMatchFrom | src/components/MusicEmbed.tsx:23 | the search finds the leftmost position where the literal is followed by a class character |
| MusicEmbed.MatchGroupNoneIff | src/components/MusicEmbed.tsx:23-24 | a pattern yields no group iff it matches at no position |
| MusicEmbed.MatchGroupLeftmost | src/components/MusicEmbed.tsx:23-24 | a found group is the maximal class run after the literal at the leftmost match |
| MusicEmbed.MatchGroupIsRun | src/components/MusicEmbed.tsx:17-24 | a found group is a non-empty run of class characters |
| MusicEmbed.FirstHitFrom | src/components/MusicEmbed.tsx:22-26 | patterns are tried in order and the first that matches anywhere is chosen |
| MusicEmbed.FirstGroup | src/components/MusicEmbed.tsx:22-26 | the extractor returns null iff no pattern matches, else the group of the first matching pattern |
| MusicEmbed.SpotifyIdShape | src/components/MusicEmbed.tsx:15-27 | the Spotify id is null iff none of track, playlist and album matches; otherwise it is a non-empty `[a-zA-Z0-9]` run from the first of them that matches |
| MusicEmbed.YoutubeIdShape | src/components/MusicEmbed.tsx:29-41 | the YouTube id is null iff none of `watch?v=`, `youtu.be/`, `/embed/` matches; otherwise it is a non-empty `[a-zA-Z0-9_-]` run from the first of them that matches |
| MusicEmbed.MatchIncludesLiteralTail | src/components/MusicEmbed.tsx:17-46 | wherever a Spotify pattern matches, the URL contains each tail of its literal, such as `/track/` |
| MusicEmbed.SpotifyTypeAgreesWithMatch | src/components/MusicEmbed.tsx:43-48 | the kind is `track` whenever the track pattern matches, and otherwise follows the first of `/track/`, `/playlist/` and `/album/` in the URL; with none of the latter two it defaults to `track` |
| MusicEmbed.RenderEmbed | src/components/MusicEmbed.tsx:50-138 | an unknown provider renders nothing; a null id renders the invalid-URL notice and never an iframe; otherwise the iframe src is the Spotify `embed/<kind>/<id>?…` URL or the YouTube `embed/<id>` URL |
| MusicEmbed.SpotifySrcLayout | src/components/MusicEmbed.tsx:81 | the Spotify src starts with the embed base, and the id sits right after the kind segment |
| MusicEmbed.IframeCarriesId | src/components/MusicEmbed.tsx:81-124 | every iframe src starts with its provider's base, and the extracted id can be read back from it |
| MusicEmbedExamples.YoutuBeExample | src/components/MusicEmbed.tsx:32 | `https://youtu.be/dQw4w9WgXcQ` yields `dQw4w9WgXcQ` |
| MusicEmbedExamples.YoutubeWatchExample | src/components/MusicEmbed.tsx:31 | `https://www.youtube.com/watch?v=dQw4w9WgXcQ` yields the same id |
| MusicEmbedExamples.SpotifyTrackExample | src/components/MusicEmbed.tsx:17-44 | `https://open.spotify.com/track/abc123` is the track `abc123` |
| MusicEmbedExamples.SpotifyPlaylistExample | src/components/MusicEmbed.tsx:18-45 | `https://open.spotify.com/playlist/xyz` is the playlist `xyz` |
| MusicEmbedExamples.SpotifyInvalidExample | src/components/MusicEmbed.tsx:55-61 | `not a link` has no Spotify id and renders "URL do Spotify inválida" |
| MusicEmbedExamples.SpotifyKindCanDisagreeWithId | src/components/MusicEmbed.tsx:16-48 | an album URL whose id is followed by `/playlist/` yields the album id but is classified as a playlist: the id and the kind are found independently |
| Roster.IsSelected | src/components/dashboard/EscalasTab.tsx:123-125 | a person is selected iff some entry has their id |
| Roster.RemoveAllContents | src/components/dashboard/EscalasTab.tsx:110 | the filter removes exactly the entries with the id and keeps the count of every other entry |
| Roster.Toggle | src/components/dashboard/EscalasTab.tsx:106-115 | toggling flips whether the person is selected and touches nobody else; an absent person is appended at the end with no role |
| Roster.RemoveAllAbsent | src/components/dashboard/EscalasTab.tsx:110 | removing a person nobody lists changes nothing |
| Roster.RemoveAllAppend | src/components/dashboard/EscalasTab.tsx:110 | removal distributes over concatenation, so it keeps the order of what remains |
| Roster.NoDuplicatesUncons | src/components/dashboard/EscalasTab.tsx:106-115 | a duplicate-free list is a head no one else shares followed by a duplicate-free tail |
| Roster.NoDuplicatesCons | src/components/dashboard/EscalasTab.tsx:106-115 | a head no one in a duplicate-free tail shares makes a duplicate-free list |
| Roster.RemoveAllKeepsNoDuplicates | src/components/dashboard/EscalasTab.tsx:110 | removal keeps the list duplicate-free |
| Roster.ToggleKeepsNoDuplicates | src/components/dashboard/EscalasTab.tsx:106-115 | toggling keeps each person listed at most once |
| Roster.ToggleTwiceRestores | src/components/dashboard/EscalasTab.tsx:106-115 | ticking an absent person and unticking them restores the list |
| Roster.UpdateRole | src/components/dashboard/EscalasTab.tsx:117-121 | only the roles of the person's entries change; length, order and ids are kept |
| Roster.UpdateRoleKeepsSelection | src/components/dashboard/EscalasTab.tsx:117-125 | assigning a role selects nobody new, drops nobody, and keeps the list duplicate-free |
| Roster.FindFirst | src/components/dashboard/EscalasTab.tsx:128 | `find` gives the first entry with the id, or none iff the person is not selected |
| Roster.GetRole | src/components/dashboard/EscalasTab.tsx:127-129 | an unselected person has no role; otherwise the role of the first entry for the person is read, with `""` reading as none |
| Roster.ChooseRole | src/components/dashboard/EscalasTab.tsx:217-224 | a role select stores no role iff its no-role item is picked (`""` in the create form, `none` in the edit dialog, src/components/dashboard/ConsultarEscalasTab.tsx:403-410), and otherwise stores the picked id |
| Roster.ChosenRoleReadsBack | src/components/dashboard/EscalasTab.tsx:117-218 | after choosing a role in either select for a listed person, reading it back gives the choice (an empty id reads as none), and other people's roles are unchanged |
| Roster.FindFirstUnchanged | src/components/dashboard/EscalasTab.tsx:119-128 | role updates never move anybody's first entry |
| Roster.ShownRoleRoundTrip | src/components/dashboard/EscalasTab.tsx:217-218 | re-picking the value a select shows stores the role it was showing: always in the create form, and in the edit dialog unless a role id is literally `none` |
| Calendar.DaysInMonth | src/components/dashboard/EscalasTab.tsx:74 | a month has 28 to 31 days: 29 only for a leap February, 30 only for April, June, September and November |
| Calendar.FormatIsoDate | src/components/dashboard/EscalasTab.tsx:74 | `yyyy-MM-dd` is ten characters with dashes at positions 4 and 7 and digits elsewhere |
| Calendar.ParseIsoDate | src/components/dashboard/ConsultarEscalasTab.tsx:119 | a parsed date is a real calendar day read from a `yyyy-MM-dd` shaped string |
| Calendar.ParseFormatRoundTrip | src/components/dashboard/ConsultarEscalasTab.tsx:119 | parsing a written date gives the date back |
| Calendar.FormatParseRoundTrip | src/components/dashboard/ConsultarEscalasTab.tsx:119 | every string that parses is the one written for its date |
| Calendar.StartOfMonth | src/components/dashboard/ConsultarEscalasTab.tsx:120 | the first day of the same month, never after the given day |
| Calendar.LastOfPreviousMonth | src/components/dashboard/ConsultarEscalasTab.tsx:118-122 | a valid day just before the first of the month: no valid day lies strictly between them |
| EscalaStore.ParticipantsOf | src/components/dashboard/ConsultarEscalasTab.tsx:158 | a schedule's participant rows are exactly the rows carrying its id |
| EscalaStore.WithoutParticipantsOf | src/components/dashboard/ConsultarEscalasTab.tsx:155-158 | the delete keeps exactly the rows of other schedules |
| EscalaStore.ParticipantsOfAppend | src/components/dashboard/EscalasTab.tsx:92-94 | an insert appends to a schedule's list the inserted rows that carry its id |
| EscalaStore.ParticipantsAfterDelete | src/components/dashboard/ConsultarEscalasTab.tsx:155-158 | after the delete the schedule has no participants and every other schedule keeps its own |
| EscalaStore.ParticipantRows | src/components/dashboard/EscalasTab.tsx:86-90 | participant rows map one-to-one and in order to the list, each carrying the schedule's id |
| EscalaStore.RosterOf | src/components/dashboard/ConsultarEscalasTab.tsx:130-135 | the dialog's list holds the stored pairs in stored order |
| EscalaStore.RosterOfParticipantRows | src/components/dashboard/ConsultarEscalasTab.tsx:130-164 | storing a list and reading it back into the dialog gives the list |
| EscalaStore.ParticipantsOfRows | src/components/dashboard/EscalasTab.tsx:86-90 | the rows written for a schedule are all its rows and none of another's |
| EscalaStore.UpdateEscalaRows | src/components/dashboard/ConsultarEscalasTab.tsx:145-151 | only the row with the id changes: its notes, and its editor when a user is signed in; without one the editor column keeps its value |
| EscalaStore.WithoutEscala | src/components/dashboard/ConsultarEscalasTab.tsx:190 | the delete keeps exactly the schedules with another id |
| EscalasTab.InitialForm | src/components/dashboard/EscalasTab.tsx:35-39 | the form starts with no community, today's date, `08:00`, nobody and empty notes |
| EscalasTab.NewEscalaRow | src/components/dashboard/EscalasTab.tsx:73-80 | the parent row's date reads back as the picked day, empty notes become null, and the creator equals the editor |
| EscalasTab.ResetAfterCreate | src/components/dashboard/EscalasTab.tsx:99-100 | success clears the list and the notes and keeps the community, date and time |
| EscalasTab.SaveEscala | src/components/dashboard/EscalasTab.tsx:62-104 | no community, no date or nobody listed is refused with no call; a failed parent insert stops before the participants and keeps the form; success stores the parent and then one row per participant and resets the form |
| EscalasTab.CreatedScheduleReadsBack | src/components/dashboard/EscalasTab.tsx:71-96 | a created schedule, read back by its new id, has exactly the form's participants in order |
| EscalasTab.CreateKeepsOtherSchedules | src/components/dashboard/EscalasTab.tsx:92-94 | creating a schedule leaves every other schedule's participants as they were |
| ConsultarEscalas.CanEdit | src/components/dashboard/ConsultarEscalasTab.tsx:118-122 | a schedule is editable iff its day is not before the first day of the current month; a date that does not parse is editable |
| ConsultarEscalas.EditWindowStartsThisMonth | src/components/dashboard/ConsultarEscalasTab.tsx:118-122 | the first of the month is editable and the last day of the previous month is not |
| ConsultarEscalas.StartEdit | src/components/dashboard/ConsultarEscalasTab.tsx:124-137 | outside the window nothing changes; otherwise the dialog opens with the stored pairs in order and the notes (null as "") |
| ConsultarEscalas.SaveEdit | src/components/dashboard/ConsultarEscalasTab.tsx:139-178 | no dialog does nothing; a failed update stops before the delete and the insert; otherwise the update, the delete and the insert run in that order; a failed insert leaves the participants as the delete left them; the dialog closes only on success |
| ConsultarEscalas.SaveEditInsertFailureEmptiesSchedule | src/components/dashboard/ConsultarEscalasTab.tsx:155-170 | when the delete succeeds and the insert fails, the edited schedule has no participants left, and other schedules keep theirs |
| ConsultarEscalas.SaveEditWritesOnlyNotes | src/components/dashboard/ConsultarEscalasTab.tsx:145-151 | the update changes only the notes and the editor of the edited schedule; date, time, community and author are kept; with nobody signed in the editor is kept too |
| ConsultarEscalas.SaveEditReplacesParticipants | src/components/dashboard/ConsultarEscalasTab.tsx:155-170 | after a save, the schedule's participants are exactly the edited list in order, and other schedules are untouched |
| ConsultarEscalas.SaveEditAfterFailedDelete | src/components/dashboard/ConsultarEscalasTab.tsx:155-170 | the delete's error is ignored, so a save whose delete failed reports success with the old rows still there |
| ConsultarEscalas.SaveEditExample | src/components/dashboard/ConsultarEscalasTab.tsx:155-170 | {A, B} edited to {B, C} stores exactly B and C |
| ConsultarEscalas.SaveEditAcceptsEmptyList | src/components/dashboard/ConsultarEscalasTab.tsx:139-170 | an edit that empties the list is not refused and leaves the schedule with no participants |
| ConsultarEscalas.Delete | src/components/dashboard/ConsultarEscalasTab.tsx:180-199 | outside the window or unconfirmed nothing is called; otherwise participants are deleted, then the schedule; only the second error is reported |
| EscalasPublicas.FilterEscalas | src/pages/EscalasPublicas.tsx:66-68 | `todas` shows the list unchanged; any other choice shows exactly that community's schedules |
| EscalasPublicas.OfCommunity | src/pages/EscalasPublicas.tsx:68 | the filter keeps exactly the schedules of the community |
| EscalasPublicas.OfCommunityKeepsOrder | src/pages/EscalasPublicas.tsx:68 | the filter distributes over concatenation, so it keeps the original order |
| EscalasPublicas.CommunityNamedTodasShowsAll | src/pages/EscalasPublicas.tsx:66-67 | a community really called `todas` cannot be singled out |
| EscalasPublicas.CommunityNames | src/pages/EscalasPublicas.tsx:62 | the names of the schedules' communities, position by position |
| EscalasPublicas.FirstIndex | src/pages/EscalasPublicas.tsx:62 | the position of a name's first occurrence |
| EscalasPublicas.Distinct | src/pages/EscalasPublicas.tsx:62 | the community list has no duplicates and holds exactly the names in the data |
| EscalasPublicas.DistinctFirstOccurrenceOrder | src/pages/EscalasPublicas.tsx:62 | the community list is ordered by first occurrence |
| EscalasPublicas.FirstIndexOfPrefix | src/pages/EscalasPublicas.tsx:62 | a name's first position in a prefix is its first position in the whole list |
| EscalasPublicas.UniqueNames | src/pages/EscalasPublicas.tsx:62 | a single pass with a seen-set computes the same first-occurrence list |
| EscalasPublicas.ApplyFetch | src/pages/EscalasPublicas.tsx:48-64 | a fetch error changes nothing; otherwise the schedules are the data, and the communities are exactly their distinct names |
| EscalasPublicas.ExportFileName | src/pages/EscalasPublicas.tsx:82-111 | `escala-<data>-<horario>.png` or `.pdf`, with `undefined` in both fields when no schedule is selected |
| EscalasPublicas.ExportFileNameDeterminesSchedule | src/pages/EscalasPublicas.tsx:82-111 | for dates of equal length the file name determines the date, the time and the format |
| EscalasPublicas.FileNamePieces | src/pages/EscalasPublicas.tsx:82-111 | where the date, the time and the extension sit in a file name |
| EscalasPublicas.LayoutPdf | src/pages/EscalasPublicas.tsx:104-110 | landscape iff the canvas is wider than tall (a square is portrait); the page is the canvas size, with the image at (0, 0) at full size |
| EscalasPublicas.JsPdfPage | src/pages/EscalasPublicas.tsx:104-108 | the page jsPDF creates is the format, with sides swapped to agree with the orientation |
| EscalasPublicas.PdfPageIsCanvas | src/pages/EscalasPublicas.tsx:104-110 | the chosen orientation never swaps the sides, so the page is exactly the canvas |
| EscalasPublicas.Download | src/pages/EscalasPublicas.tsx:70-117 | without a preview nothing happens; otherwise the flag goes true then false, and a file is saved, under the export name, iff rendering succeeds |
| EscalasPublicas.EveryPressFindsButtonsEnabled | src/pages/EscalasPublicas.tsx:32-116 | after any series of presses, failed renders included, the flag is false, so the next press finds the buttons enabled; each press that renders adds exactly its own file |
| WalletCard.ByteValue | src/components/WalletCard.tsx:40 | a two-hex-digit field is a value below 256 |
| WalletCard.HexColorDigits | src/components/WalletCard.tsx:38 | the pattern accepts exactly six hex digits, optionally after `#`, in either case |
| WalletCard.ParseHexColor | src/components/WalletCard.tsx:38-40 | the colour is read iff the pattern matches, and each component is below 256 |
| WalletCard.HexToRgb | src/components/WalletCard.tsx:37-42 | a match gives `r, g, b` from the three byte pairs; anything else gives `128, 128, 128` |
| WalletCard.OnlySixDigitFormMatches | src/components/WalletCard.tsx:38-41 | short, eight-digit and other lengths fall back to gray |
| WalletCard.HexColor | src/components/WalletCard.tsx:38 | writing a colour gives `#` and six hex digits |
| WalletCard.HexColorRoundTrip | src/components/WalletCard.tsx:38-40 | reading a written colour gives the colour |
| WalletCard.ParsedColorReencodes | src/components/WalletCard.tsx:38-40 | re-encoding the components read reproduces the input digits, up to case |
| WalletCard.ByteDigits | src/components/WalletCard.tsx:40 | the two digits of a byte value are the digits it was read from |
| WalletCard.WalletProfileUrl | src/components/WalletCard.tsx:15 | the card links to `<origin>/p/<slug>` for a non-empty slug, else to the origin |
| WalletCard.WalletLinkAgreesWithEditor | src/components/WalletCard.tsx:15 | the card links where the editor does, falling back to the origin where the editor shows no link |
| WalletCard.DownloadFileName | src/components/WalletCard.tsx:20 | `carteira-<slug>.png`, with `catolica` for a missing or empty slug |
| WalletCard.DownloadFileNameInjective | src/components/WalletCard.tsx:20 | distinct non-empty slugs download under distinct names |
| WalletCard.CatolicaSlugCollides | src/components/WalletCard.tsx:20 | the slug `catolica` downloads under the same name as a card without a slug |
| WalletCard.WalletLinkArea | src/components/WalletCard.tsx:157-169 | a QR code is shown iff the slug is non-empty, and then it encodes the profile link; otherwise the caption is "Sem link público" |
| WalletCard.QrEncodesCaption | src/components/WalletCard.tsx:15-163 | the QR code's value is the origin followed by the caption next to it |
| ProfileUtils.GetDisplayName | src/lib/profileUtils.ts:1-6 | "Pe. " is prefixed iff the status is `padre`, the name is non-empty and its lower case does not start with `pe.`; otherwise the name is unchanged |
| ProfileUtils.DisplayNameEndsWithName | src/lib/profileUtils.ts:3-5 | the given name is always the tail of the displayed name |
| ProfileUtils.DisplayNameIdempotent | src/lib/profileUtils.ts:1-6 | applying the title twice adds it once |
| ProfileUtils.GetCivilStatusLabel | src/lib/profileUtils.ts:8-19 | null or "" gives ""; a known key gives its label; any other text is shown as stored |
| ProfileUtils.GetSacramentLabel | src/lib/profileUtils.ts:21-32 | a known key gives its label; any other text is shown as stored |
| ProfileUtils.EveryKeyHasALabel | src/lib/profileUtils.ts:9-30 | every civil status and every sacrament has a non-empty label |
| ProfileUtils.LabelKeysAreTheEnumerations | src/lib/profileUtils.ts:9-30 | the label tables have exactly the keys of the two enumerations |
| Cloudinary.ValidateImageFile | src/lib/cloudinary.ts:46-58 | a type outside jpeg, png, webp and jpg is the type error whatever the size; the size error occurs iff the type is valid and the size is above 1 MiB; the result is null iff the type is valid and the size is at most 1 MiB |
| Cloudinary.UploadPrecheck | src/lib/cloudinary.ts:16-18 | the upload refuses before any request iff the size is above 1 MiB, whatever the type |
| Cloudinary.ValidatorImpliesPrecheck | src/lib/cloudinary.ts:16-58 | a file the validator accepts passes the upload check, and a file that check refuses is refused by the validator with the same message when its type is valid |
| Cloudinary.SizeBoundary | src/lib/cloudinary.ts:3-55 | the limit is 1048576 bytes: exactly 1 MiB is accepted and one byte more is not |
| GradientCustomizer.SetAngle | src/components/GradientCustomizer.tsx:89-96 | the slider keeps the angle within 0..360 and changes nothing else |
| GradientCustomizer.ApplyCustomGradient | src/components/GradientCustomizer.tsx:14-104 | the applied value is the preview's background, and the angle's digits, the two colours and the fixed pieces of the template sit at known positions |
| GradientCustomizer.CustomGradientReadBack | src/components/GradientCustomizer.tsx:14-17 | when the two first colours have one length, the applied value determines the angle and both colours |
| GradientCustomizer.CustomGradientTypedColoursAmbiguous | src/components/GradientCustomizer.tsx:55-79 | typed colours containing ` 0%, ` give two different states the same applied value |
| GradientCustomizer.SelectPreset | src/components/GradientCustomizer.tsx:26 | a preset click emits the preset's value verbatim |
| GradientCustomizer.InitialStateIsFirstPreset | src/components/GradientCustomizer.tsx:10-12 | the untouched customizer produces exactly the first preset |
| GradientCustomizer.PresetsFollowTemplate | src/types/profile.ts:45-96 | there are 10 presets, each with two colours, and each value is the 135-degree gradient of its colours |
| GradientCustomizer.PresetColorsAreHex | src/types/profile.ts:45-96 | every preset colour is a six-digit hex colour that the card reads |
| GradientCustomizer.PresetsDistinct | src/types/profile.ts:45-96 | preset names are pairwise distinct, and so are preset values |
| GradientCustomizer.FirstColorAt | src/components/GradientCustomizer.tsx:15 | at 135 degrees the first colour starts at the 25th character of the gradient |
| GradientCustomizer.PresetClickHighlightsOnlyIt | src/components/GradientCustomizer.tsx:26-28 | after a preset click exactly that preset is highlighted |
| ProfileDisplay.LoadProfile | src/components/ProfileDisplay.tsx:21-35 | without a user nothing happens; otherwise loading ends, and a row found replaces the profile while no row keeps the old one |
| ProfileDisplay.StyleFor | src/components/ProfileDisplay.tsx:68-78 | gradient kinds give `background`; an image gives a covering, centred, fixed `url(...)`; every other kind gives `backgroundColor` |
| ProfileDisplay.StyleKeepsValue | src/components/ProfileDisplay.tsx:68-78 | every style carries the stored value unchanged, so it can be read back |
| ProfileDisplay.StyleDependsOnlyOnClass | src/components/ProfileDisplay.tsx:69-78 | a custom gradient is drawn like a preset one, and an unknown kind like `solid` |
| ProfileDisplay.OverlayOpacity | src/components/ProfileDisplay.tsx:80-82 | for an image the stored opacity, with null or 0 becoming 0.3; for any other kind 0.2 |
| ProfileDisplay.OverlayNeverZero | src/components/ProfileDisplay.tsx:80-82 | the overlay is never fully transparent, and the stored opacity matters only for an image |
| ProfileDisplay.ShownName | src/components/ProfileDisplay.tsx:143 | an empty name shows "Seu Nome", and a non-empty one shows as is |
| ProfileDisplay.ShownNameIdempotent | src/components/ProfileDisplay.tsx:143 | the fallback applied to a shown name changes nothing |
| ProfileDisplay.PastoralHeading | src/components/ProfileDisplay.tsx:165-173 | the block is shown iff there are pastorals; the heading is "Pastoral" iff there is one, else "Pastorais" |
| ProfileDisplay.PastoralHeadingGrows | src/components/ProfileDisplay.tsx:165-173 | adding a pastoral keeps the block shown, and past the first the heading is plural |
| ProfileDisplay.ViewOf | src/components/ProfileDisplay.tsx:68-187 | the page's background, overlay, name and pastoral block are those of the loaded profile |
| ProfileDisplay.Render | src/components/ProfileDisplay.tsx:37-66 | the spinner while loading, the create prompt after loading without a profile, the profile page otherwise |
| ProfileDisplay.FirstLoadScreen | src/components/ProfileDisplay.tsx:14-66 | after the first load a user without a row sees the create prompt and one with a row sees it; without a user the spinner stays |
| ProfileDisplay.ReloadWithoutRowKeepsPage | src/components/ProfileDisplay.tsx:31-34 | a reload that finds no row keeps showing the profile on screen |

## Left out

- `toLowerCase` and `normalize('NFD')` in `generateSlug` are a per-character parameter, because full Unicode tables are out of scope. Every slug property holds for any such table. The concrete table `Slug.LatinFold` covers ASCII and the accented Latin-1 letters.
- The 500 ms debounce around the slug check is timer and ordering behaviour: a cleanup that is never used, and responses that can race. It is not modelled.
- The month upper bound of the public and dashboard queries depends on the host time zone, so it is not modelled as calendar arithmetic.
- The Supabase query builder is reduced to filters over row sequences. Joined result shapes and the per-schedule profile lookup of the dashboard list are out of scope. Foreign keys and cascades of the tables are not modelled either.
- html2canvas, jsPDF, Blob URLs and the Web Share API are out of scope: rasterising, PDF writing, saving and sharing, including `handleShare` and the wallet download. Only the names and page geometry are modelled. How jsPDF treats an orientation that disagrees with the format is stated as an assumption in `EscalasPublicas.JsPdfPage`.
- The editor writes a `pastoral` field while the profile type and the page read `pastorals`. The model follows the profile type.
- A `null` pastorals array cannot occur in the model, because the type declares an array.
- Opacity values are opaque reals, because float formatting and NaN are out of scope. A stored NaN, which is falsy, would also become 0.3 in the source.
- `Calendar.ParseIsoDate` reads only the `yyyy-MM-dd` form with a year below 10000. The other ISO 8601 forms `parseISO` accepts are not modelled.
- `EscalasTab.NewEscalaRow`: with nobody signed in, `created_by: user?.id` and `updated_by: user?.id` are `undefined`, keys the JSON body leaves out, so the database fills both columns with their default. The table definitions are not part of this model, and the model takes that default to be null.
- `ProfileEditor.SubmitStoresDraft`: no longer promises that the draft is stored after every accepted write. A loaded profile saved while the existence lookup fails hits the primary key and is not stored. Other unique constraints of the `profiles` table are not modelled, because the table definition is not part of this model.
- `Roster.RemoveAllContents`: speaks of membership and counts. Order is stated separately, by `Roster.RemoveAllAppend`.
- The reload of the lists after a save or a delete (`fetchData`) is not modelled, because it only re-reads the tables.
- The dashboard's list and share dialog are not modelled, because they hold no logic beyond display.
- The list of liturgical roles (src/components/dashboard/src/components/dashboard/FuncoesLiturgicasTab.tsx) is not part of this model, because it is thin create/read/update/delete over one table.
- src/lib/supabase.ts is not part of this model. Its profile interface is stale, and the model follows src/types/profile.ts.
- The Cloudinary upload request and ImageUpload.tsx are not modelled. They are HTTP and file-input plumbing, and their validation is the one modelled.
- Locale date formatting on screen, routing, authentication screens and the landing page are not modelled, because they hold no logic beyond display.
- The `labels[key] || key` lookups are finite maps, so JavaScript prototype keys such as `constructor` are not modelled.
