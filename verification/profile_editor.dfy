/** The save path of src/components/ProfileEditor.tsx: the slug-availability
    check, the guards of `handleSubmit`, its update-or-insert choice over the
    `profiles` table, and the editor's `profileUrl`.

    The table is a sequence of rows. A remote call is given its outcome as a
    parameter (`...Fails`), and every result counts the remote calls made. */
module ProfileEditor {
  import opened Wrappers
  import opened ProfileTypes

  /** Slugs shorter than this are neither checked nor saved. */
  const MinSlugLength: nat := 3

  /** The rows a `.eq(column, x)` query on `slug` and `.neq('user_id', me)` selects. */
  function OtherHolders(rows: seq<Profile>, slug: string, me: string): (r: seq<Profile>)
    ensures |r| <= |rows|
    ensures forall p :: p in r <==> p in rows && p.slug == Some(slug) && p.userId != me
    ensures |r| == 0 <==> forall p :: p in rows ==> !(p.slug == Some(slug) && p.userId != me)
  {
    if |rows| == 0 then []
    else (if rows[0].slug == Some(slug) && rows[0].userId != me then [rows[0]] else [])
         + OtherHolders(rows[1..], slug, me)
  }

  /** The table's uniqueness constraint on `slug`: no two rows share a slug. */
  predicate UniqueSlugs(rows: seq<Profile>) {
    forall i, j :: 0 <= i < j < |rows| && rows[i].slug.Some? ==> rows[i].slug != rows[j].slug
  }

  lemma {:induction false} UniqueSlugsAtMostOneHolder(rows: seq<Profile>, slug: string, me: string)
    requires UniqueSlugs(rows)
    ensures |OtherHolders(rows, slug, me)| <= 1
    decreases |rows|
  {
    if |rows| > 0 {
      assert UniqueSlugs(rows[1..]) by {
        forall i, j | 0 <= i < j < |rows[1..]| && rows[1..][i].slug.Some?
          ensures rows[1..][i].slug != rows[1..][j].slug
        {
          assert rows[1..][i] == rows[i + 1] && rows[1..][j] == rows[j + 1];
        }
      }
      UniqueSlugsAtMostOneHolder(rows[1..], slug, me);
      if rows[0].slug == Some(slug) {
        assert forall k :: 0 <= k < |rows[1..]| ==> rows[1..][k].slug != Some(slug) by {
          forall k | 0 <= k < |rows[1..]|
            ensures rows[1..][k].slug != Some(slug)
          {
            assert rows[1..][k] == rows[k + 1];
          }
        }
        assert |OtherHolders(rows[1..], slug, me)| == 0;
      }
    }
  }

  /** What `checkSlugAvailability` leaves behind: the availability state
      (None is the source's null, "unknown") and whether a query was issued. */
  datatype SlugCheck = SlugCheck(availability: Option<bool>, queried: bool)

  /** `checkSlugAvailability(slug)`. The query asks `maybeSingle` for a row of
      another user holding the slug; `maybeSingle` yields no data when the query
      fails or finds more than one row, and the slug then reads as available. */
  function CheckSlugAvailability(slug: string, user: Option<string>, rows: seq<Profile>, queryFails: bool): (r: SlugCheck)
    ensures |slug| < MinSlugLength <==> !r.queried
    ensures !r.queried ==> r.availability == None
    ensures r.queried ==> r.availability.Some?
    ensures r.queried ==>
              (r.availability == Some(false) <==> !queryFails && |OtherHolders(rows, slug, user.GetOr(""))| == 1)
    ensures r.queried && !queryFails && UniqueSlugs(rows) ==>
              (r.availability == Some(false) <==>
                 exists p :: p in rows && p.slug == Some(slug) && p.userId != user.GetOr(""))
  {
    if |slug| < MinSlugLength then SlugCheck(None, false)
    else
      var holders := OtherHolders(rows, slug, user.GetOr(""));
      var found := !queryFails && |holders| == 1;
      UniqueSlugsHolderLemma(rows, slug, user.GetOr(""));
      SlugCheck(Some(!found), true)
  }

  lemma UniqueSlugsHolderLemma(rows: seq<Profile>, slug: string, me: string)
    ensures UniqueSlugs(rows) ==>
              (|OtherHolders(rows, slug, me)| == 1 <==>
                 exists p :: p in rows && p.slug == Some(slug) && p.userId != me)
  {
    if UniqueSlugs(rows) {
      var h := OtherHolders(rows, slug, me);
      UniqueSlugsAtMostOneHolder(rows, slug, me);
      if exists p :: p in rows && p.slug == Some(slug) && p.userId != me {
        var p :| p in rows && p.slug == Some(slug) && p.userId != me;
        assert p in h;
      }
    }
  }

  /** How `handleSubmit` ended. */
  datatype SubmitOutcome =
    | NotSignedIn      // no session: returns at once
    | SlugTooShort     // "O link personalizado deve ter pelo menos 3 caracteres"
    | SlugTaken        // "Este link já está em uso. Escolha outro."
    | Updated          // an existing row was updated
    | Inserted         // a new row was inserted
    | SaveFailed       // the update or insert returned an error

  datatype SubmitResult = SubmitResult(outcome: SubmitOutcome, rows: seq<Profile>, remoteCalls: nat)

  /** The source's `!profile.slug || profile.slug.length < 3`. */
  predicate SlugTooShortFor(slug: Option<string>) {
    slug.None? || |slug.value| < MinSlugLength
  }

  function RowsOf(rows: seq<Profile>, user: string): (r: seq<Profile>)
    ensures |r| <= |rows|
    ensures forall p :: p in r <==> p in rows && p.userId == user
    ensures |r| == 0 <==> forall p :: p in rows ==> p.userId != user
  {
    if |rows| == 0 then []
    else (if rows[0].userId == user then [rows[0]] else []) + RowsOf(rows[1..], user)
  }

  /** The update `{ ...profile, updated_at: now }` applied to one matched row. The
      draft was loaded from that row, so it carries the row's id, owner and
      creation time. */
  function UpdatedRow(row: Profile, draft: Profile, now: string): Profile {
    draft.(id := row.id, userId := row.userId, createdAt := row.createdAt, updatedAt := now)
  }

  /** `update(...).eq('user_id', user)`: every row of the user gets the draft. */
  function UpdateRowsOf(rows: seq<Profile>, user: string, draft: Profile, now: string): (r: seq<Profile>)
    ensures |r| == |rows|
    ensures forall i :: 0 <= i < |rows| && rows[i].userId != user ==> r[i] == rows[i]
    ensures forall i :: 0 <= i < |rows| && rows[i].userId == user ==> r[i] == UpdatedRow(rows[i], draft, now)
  {
    if |rows| == 0 then []
    else [if rows[0].userId == user then UpdatedRow(rows[0], draft, now) else rows[0]]
         + UpdateRowsOf(rows[1..], user, draft, now)
  }

  /** The row `insert([{ ...profile, user_id: user.id }])` sends. A draft that
      `loadProfile` filled from a row carries that row's id and timestamps, and
      the insert sends them as they are; a fresh draft has none, and the
      database supplies `newId` and `now`. */
  function InsertedRow(draft: Profile, loaded: bool, me: string, newId: string, now: string): (row: Profile)
    ensures row.userId == me
    ensures row.slug == draft.slug && row.fullName == draft.fullName
    ensures row.musicEmbeds == draft.musicEmbeds && row.backgroundValue == draft.backgroundValue
    ensures loaded ==> row.id == draft.id && row.createdAt == draft.createdAt && row.updatedAt == draft.updatedAt
    ensures !loaded ==> row.id == newId && row.createdAt == now && row.updatedAt == now
  {
    if loaded then draft.(userId := me)
    else draft.(id := newId, userId := me, createdAt := now, updatedAt := now)
  }

  /** The primary key on `id` refuses an insert whose id some row already has:
      this happens when a loaded draft is inserted while its row still exists. */
  predicate KeyConflict(rows: seq<Profile>, draft: Profile, loaded: bool) {
    loaded && exists p :: p in rows && p.id == draft.id
  }

  /** `handleSubmit`. `loaded` says whether the draft was filled by
      `loadProfile`. The row-existence lookup's error is ignored by the source:
      a failed lookup reads as "no row" and leads to an insert, which for a
      loaded draft re-sends the id of an existing row and is refused. */
  function Submit(user: Option<string>, draft: Profile, loaded: bool, slugAvailable: Option<bool>, rows: seq<Profile>,
                  lookupFails: bool, writeFails: bool, newId: string, now: string): (r: SubmitResult)
    ensures user.None? <==> r.outcome == NotSignedIn
    ensures user.Some? && SlugTooShortFor(draft.slug) <==> r.outcome == SlugTooShort
    ensures user.Some? && !SlugTooShortFor(draft.slug) && slugAvailable == Some(false) <==> r.outcome == SlugTaken
    ensures r.outcome in {NotSignedIn, SlugTooShort, SlugTaken, SaveFailed} ==> r.rows == rows
    ensures r.outcome in {NotSignedIn, SlugTooShort, SlugTaken} <==> r.remoteCalls == 0
    ensures r.outcome in {Updated, Inserted, SaveFailed} ==> r.remoteCalls == 2
    ensures r.remoteCalls == 2 ==>
              (r.outcome == SaveFailed <==>
                 writeFails || ((lookupFails || |RowsOf(rows, user.value)| != 1) && KeyConflict(rows, draft, loaded)))
    ensures r.outcome == Updated ==> !lookupFails && |RowsOf(rows, user.value)| == 1
    ensures r.outcome == Inserted ==> lookupFails || |RowsOf(rows, user.value)| != 1
    ensures r.outcome == Updated ==>
              |r.rows| == |rows|
              && (forall i :: 0 <= i < |rows| && rows[i].userId != user.value ==> r.rows[i] == rows[i])
              && (forall i :: 0 <= i < |rows| && rows[i].userId == user.value ==>
                    r.rows[i] == UpdatedRow(rows[i], draft, now))
    ensures r.outcome == Inserted ==> r.rows == rows + [InsertedRow(draft, loaded, user.value, newId, now)]
  {
    if user.None? then SubmitResult(NotSignedIn, rows, 0)
    else if SlugTooShortFor(draft.slug) then SubmitResult(SlugTooShort, rows, 0)
    else if slugAvailable == Some(false) then SubmitResult(SlugTaken, rows, 0)
    else
      var me := user.value;
      var exists_ := !lookupFails && |RowsOf(rows, me)| == 1;
      if writeFails then SubmitResult(SaveFailed, rows, 2)
      else if exists_ then SubmitResult(Updated, UpdateRowsOf(rows, me, draft, now), 2)
      else if KeyConflict(rows, draft, loaded) then SubmitResult(SaveFailed, rows, 2)
      else SubmitResult(Inserted, rows + [InsertedRow(draft, loaded, me, newId, now)], 2)
  }

  /** Row ids are distinct: the table's primary key. */
  predicate UniqueIds(rows: seq<Profile>) {
    forall i, j :: 0 <= i < j < |rows| ==> rows[i].id != rows[j].id
  }

  /** Whatever the lookup and the write do, a save never leaves two rows with
      one id, provided the id the database hands out is fresh. */
  lemma SubmitKeepsIdsUnique(user: Option<string>, draft: Profile, loaded: bool, slugAvailable: Option<bool>,
                             rows: seq<Profile>, lookupFails: bool, writeFails: bool, newId: string, now: string)
    requires UniqueIds(rows)
    requires forall p :: p in rows ==> p.id != newId
    ensures UniqueIds(Submit(user, draft, loaded, slugAvailable, rows, lookupFails, writeFails, newId, now).rows)
  {
    var r := Submit(user, draft, loaded, slugAvailable, rows, lookupFails, writeFails, newId, now);
    if r.outcome == Inserted {
      var row := InsertedRow(draft, loaded, user.value, newId, now);
      forall i | 0 <= i < |rows|
        ensures rows[i].id != row.id
      {
        assert rows[i] in rows;
      }
    } else if r.outcome == Updated {
      forall i, j | 0 <= i < j < |rows|
        ensures r.rows[i].id != r.rows[j].id
      {
        assert r.rows[i].id == rows[i].id && r.rows[j].id == rows[j].id;
      }
    }
  }

  /** A profile loaded from its row, saved while the existence lookup fails:
      the insert re-sends the row's id and the save reports an error, leaving
      the table as it was. */
  lemma LoadedDraftAfterFailedLookupFails(user: string, draft: Profile, slugAvailable: Option<bool>, rows: seq<Profile>,
                                          newId: string, now: string)
    requires !SlugTooShortFor(draft.slug) && slugAvailable != Some(false)
    requires exists p :: p in rows && p.userId == user && p.id == draft.id
    ensures var r := Submit(Some(user), draft, true, slugAvailable, rows, true, false, newId, now);
            r.outcome == SaveFailed && r.rows == rows && r.remoteCalls == 2
  {
  }

  /** With each user owning at most one row and a lookup that succeeds, a save
      updates exactly when the user already has a row; otherwise it inserts,
      unless a loaded draft's id is still taken by a row. */
  lemma SubmitUpdatesIffRowExists(user: string, draft: Profile, loaded: bool, slugAvailable: Option<bool>,
                                  rows: seq<Profile>, newId: string, now: string)
    requires |RowsOf(rows, user)| <= 1
    requires !SlugTooShortFor(draft.slug) && slugAvailable != Some(false)
    ensures (Submit(Some(user), draft, loaded, slugAvailable, rows, false, false, newId, now).outcome == Updated)
              <==> (exists p :: p in rows && p.userId == user)
    ensures (Submit(Some(user), draft, loaded, slugAvailable, rows, false, false, newId, now).outcome == Inserted)
              <==> (forall p :: p in rows ==> p.userId != user) && !KeyConflict(rows, draft, loaded)
  {
    var mine := RowsOf(rows, user);
    if exists p :: p in rows && p.userId == user {
      var p :| p in rows && p.userId == user;
      assert p in mine;
    }
  }

  /** A save that the database accepts leaves a row of the user holding the
      draft's content; the only refusal besides a failed write is the key
      conflict of a loaded draft whose existing row the lookup missed. */
  lemma SubmitStoresDraft(user: string, draft: Profile, loaded: bool, slugAvailable: Option<bool>, rows: seq<Profile>,
                          lookupFails: bool, newId: string, now: string)
    requires !SlugTooShortFor(draft.slug) && slugAvailable != Some(false)
    ensures var r := Submit(Some(user), draft, loaded, slugAvailable, rows, lookupFails, false, newId, now);
            (r.outcome == SaveFailed <==>
               (lookupFails || |RowsOf(rows, user)| != 1) && KeyConflict(rows, draft, loaded))
            && (r.outcome != SaveFailed ==>
                  exists p :: p in r.rows && p.userId == user && p.slug == draft.slug && p.fullName == draft.fullName
                              && p.musicEmbeds == draft.musicEmbeds && p.backgroundValue == draft.backgroundValue)
  {
    var r := Submit(Some(user), draft, loaded, slugAvailable, rows, lookupFails, false, newId, now);
    if r.outcome == Updated {
      var mine := RowsOf(rows, user);
      assert mine[0] in mine;
      var i :| 0 <= i < |rows| && rows[i] == mine[0];
      assert r.rows[i] in r.rows;
    } else if r.outcome == Inserted {
      assert r.rows[|rows|] in r.rows;
    }
  }

  /** The editor's `profileUrl`: the public link when a slug is set, else "". */
  function EditorProfileUrl(origin: string, slug: Option<string>): (url: string)
    ensures slug.None? || slug == Some("") <==> url == ""
    ensures slug.Some? && slug.value != "" ==> url == PublicProfileUrl(origin, slug.value)
  {
    if slug.Some? && slug.value != "" then PublicProfileUrl(origin, slug.value) else ""
  }

  /** The link under the slug field is shown iff `profileUrl && slugAvailable`. */
  function ShowsPublicLink(origin: string, slug: Option<string>, slugAvailable: Option<bool>): (shown: bool)
    ensures shown <==> slug.Some? && slug.value != "" && slugAvailable == Some(true)
  {
    EditorProfileUrl(origin, slug) != "" && slugAvailable == Some(true)
  }
}
