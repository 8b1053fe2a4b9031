/** The edit window, the edit dialog and the delete button of
    src/components/dashboard/ConsultarEscalasTab.tsx: `canEdit`, `handleEdit`,
    `handleSaveEdit` (which replaces a schedule's participants) and
    `handleDelete`. The current date is a parameter. */
module ConsultarEscalas {
  import opened Wrappers
  import opened Calendar
  import opened Roster
  import opened EscalaStore

  /** `canEdit(data)`: the schedule's day is not before the first day of the
      current month. A `data` that `parseISO` cannot read is an invalid date,
      which `isBefore` never reports as earlier, so it counts as editable. */
  function CanEdit(data: string, today: Date): (b: bool)
    ensures ParseIsoDate(data).None? ==> b
    ensures ParseIsoDate(data).Some? ==>
              var d := ParseIsoDate(data).value;
              (b <==> d.year > today.year || (d.year == today.year && d.month >= today.month))
  {
    match ParseIsoDate(data)
    case None => true
    case Some(d) => !Before(d, StartOfMonth(today))
  }

  /** The first day of the current month is the earliest editable day: it is
      editable and the day before it is not. */
  lemma EditWindowStartsThisMonth(today: Date)
    requires ValidDate(today) && (today.year >= 1 || today.month >= 2)
    ensures CanEdit(FormatIsoDate(StartOfMonth(today)), today)
    ensures !CanEdit(FormatIsoDate(LastOfPreviousMonth(today)), today)
  {
    ParseFormatRoundTrip(StartOfMonth(today));
    ParseFormatRoundTrip(LastOfPreviousMonth(today));
  }

  /** A schedule as listed: its row and the joined participant rows, which
      may be missing from the response. */
  datatype ListedEscala = ListedEscala(row: EscalaRow, participantes: Option<seq<ParticipantRow>>)

  /** The dialog's state: the schedule being edited (None: closed), the
      working list and the notes field. */
  datatype EditState = EditState(editing: Option<EscalaRow>, participantes: seq<Participant>, observacoes: string)

  /** `handleEdit`: refused outside the edit window; otherwise opens the
      dialog with the stored pairs in stored order and the notes (null as ""). */
  function StartEdit(st: EditState, e: ListedEscala, today: Date): (r: EditState)
    ensures !CanEdit(e.row.data, today) ==> r == st
    ensures CanEdit(e.row.data, today) ==>
              r.editing == Some(e.row)
              && |r.participantes| == |e.participantes.GetOr([])|
              && (forall i :: 0 <= i < |r.participantes| ==>
                    r.participantes[i].pessoaId == e.participantes.GetOr([])[i].pessoaId
                    && r.participantes[i].funcaoLiturgicaId == e.participantes.GetOr([])[i].funcaoLiturgicaId)
              && (e.row.observacoes.Some? ==> r.observacoes == e.row.observacoes.value)
              && (e.row.observacoes.None? ==> r.observacoes == "")
  {
    if !CanEdit(e.row.data, today) then st
    else EditState(Some(e.row), RosterOf(e.participantes.GetOr([])), e.row.observacoes.GetOr(""))
  }

  datatype SaveOutcome =
    | NotEditing     // no dialog open: nothing happens
    | UpdateFailed   // the `escalas` update returned an error
    | InsertFailed   // notes saved, old participants (maybe) deleted, new ones not inserted
    | Saved

  datatype SaveResult = SaveResult(outcome: SaveOutcome, store: Store, state: EditState, calls: seq<Call>)

  /** `handleSaveEdit`. The notes are written as typed (an empty field stores
      "", not null); the participant delete's error is not looked at; an
      empty list is accepted. */
  function SaveEdit(st: EditState, user: Option<string>, s: Store, fails: set<Call>): (r: SaveResult)
    ensures r.outcome == NotEditing <==> st.editing.None?
    ensures r.outcome == UpdateFailed <==> st.editing.Some? && UpdateEscala in fails
    ensures r.outcome == Saved <==> st.editing.Some? && UpdateEscala !in fails && InsertParticipants !in fails
    ensures r.outcome in {NotEditing, UpdateFailed} ==> r.store == s
    ensures r.outcome == NotEditing ==> r.calls == []
    ensures r.outcome == UpdateFailed ==> r.calls == [UpdateEscala]
    ensures r.outcome in {InsertFailed, Saved} ==>
              r.calls == [UpdateEscala, DeleteParticipants, InsertParticipants]
              && r.store.escalas == UpdateEscalaRows(s.escalas, st.editing.value.id, Some(st.observacoes), user)
    ensures r.outcome == InsertFailed && DeleteParticipants !in fails ==>
              r.store.participantes == WithoutParticipantsOf(s.participantes, st.editing.value.id)
    ensures r.outcome == InsertFailed && DeleteParticipants in fails ==> r.store.participantes == s.participantes
    ensures r.outcome == Saved ==> r.state == st.(editing := None)
    ensures r.outcome != Saved ==> r.state == st
  {
    if st.editing.None? then SaveResult(NotEditing, s, st, [])
    else if UpdateEscala in fails then SaveResult(UpdateFailed, s, st, [UpdateEscala])
    else
      var id := st.editing.value.id;
      var updated := s.(escalas := UpdateEscalaRows(s.escalas, id, Some(st.observacoes), user));
      var cleared := if DeleteParticipants in fails then updated
                     else updated.(participantes := WithoutParticipantsOf(s.participantes, id));
      var calls := [UpdateEscala, DeleteParticipants, InsertParticipants];
      if InsertParticipants in fails then SaveResult(InsertFailed, cleared, st, calls)
      else
        var saved := cleared.(participantes := cleared.participantes + ParticipantRows(id, st.participantes));
        SaveResult(Saved, saved, st.(editing := None), calls)
  }

  /** The update touches only the notes and the editor of the edited
      schedule: its date, time, community and author are kept, the editor
      becomes the signed-in user or, with nobody signed in, stays as it was,
      and every other schedule is untouched. */
  lemma SaveEditWritesOnlyNotes(st: EditState, user: Option<string>, s: Store, fails: set<Call>)
    requires SaveEdit(st, user, s, fails).outcome in {InsertFailed, Saved}
    ensures var r := SaveEdit(st, user, s, fails);
            var id := st.editing.value.id;
            |r.store.escalas| == |s.escalas|
            && (forall i :: 0 <= i < |s.escalas| ==>
                  var before, after := s.escalas[i], r.store.escalas[i];
                  after.id == before.id && after.data == before.data && after.horario == before.horario
                  && after.comunidadeId == before.comunidadeId && after.createdBy == before.createdBy
                  && (before.id != id ==> after == before)
                  && (before.id == id ==> after.observacoes == Some(st.observacoes))
                  && (before.id == id && user.Some? ==> after.updatedBy == user)
                  && (user.None? ==> after.updatedBy == before.updatedBy))
  {
  }

  /** After a successful save with a working delete, the edited schedule's
      stored participants are exactly the edited list, in order; every other
      schedule keeps its participants. */
  lemma SaveEditReplacesParticipants(st: EditState, user: Option<string>, s: Store, fails: set<Call>, other: string)
    requires SaveEdit(st, user, s, fails).outcome == Saved && DeleteParticipants !in fails
    ensures var r := SaveEdit(st, user, s, fails);
            var id := st.editing.value.id;
            ParticipantsOf(r.store.participantes, id) == ParticipantRows(id, st.participantes)
            && RosterOf(ParticipantsOf(r.store.participantes, id)) == st.participantes
            && (other != id ==> ParticipantsOf(r.store.participantes, other) == ParticipantsOf(s.participantes, other))
  {
    var id := st.editing.value.id;
    var kept := WithoutParticipantsOf(s.participantes, id);
    var rows := ParticipantRows(id, st.participantes);
    ParticipantsOfAppend(kept, rows, id);
    ParticipantsAfterDelete(s.participantes, id, id);
    ParticipantsOfRows(id, st.participantes, id);
    assert [] + rows == rows;
    RosterOfParticipantRows(id, st.participantes);
    if other != id {
      ParticipantsOfAppend(kept, rows, other);
      ParticipantsAfterDelete(s.participantes, id, other);
      ParticipantsOfRows(id, st.participantes, other);
      assert ParticipantsOf(kept, other) + [] == ParticipantsOf(kept, other);
    }
  }

  /** The write is not atomic: when the delete went through and the insert
      failed, the edited schedule is left with no participants at all, while
      every other schedule keeps its own. */
  lemma SaveEditInsertFailureEmptiesSchedule(st: EditState, user: Option<string>, s: Store, fails: set<Call>, other: string)
    requires SaveEdit(st, user, s, fails).outcome == InsertFailed && DeleteParticipants !in fails
    ensures var r := SaveEdit(st, user, s, fails);
            var id := st.editing.value.id;
            ParticipantsOf(r.store.participantes, id) == []
            && (other != id ==> ParticipantsOf(r.store.participantes, other) == ParticipantsOf(s.participantes, other))
  {
    var id := st.editing.value.id;
    ParticipantsAfterDelete(s.participantes, id, id);
    ParticipantsAfterDelete(s.participantes, id, other);
  }

  /** Because the delete's error is ignored, a save whose delete failed still
      reports success and leaves the old participant rows next to the new. */
  lemma SaveEditAfterFailedDelete(st: EditState, user: Option<string>, s: Store, fails: set<Call>)
    requires SaveEdit(st, user, s, fails).outcome == Saved && DeleteParticipants in fails
    ensures var r := SaveEdit(st, user, s, fails);
            var id := st.editing.value.id;
            ParticipantsOf(r.store.participantes, id)
              == ParticipantsOf(s.participantes, id) + ParticipantRows(id, st.participantes)
  {
    var id := st.editing.value.id;
    ParticipantsOfAppend(s.participantes, ParticipantRows(id, st.participantes), id);
    ParticipantsOfRows(id, st.participantes, id);
  }

  /** Editing {A, B} to {B, C}: the schedule then lists B and C, and A's row
      is gone. */
  lemma SaveEditExample(id: string, user: Option<string>, row: EscalaRow)
    requires row.id == id
    ensures var a, b, c := Participant("A", None), Participant("B", Some("leitor")), Participant("C", None);
            var s := Store([row], ParticipantRows(id, [a, b]));
            var r := SaveEdit(EditState(Some(row), [b, c], ""), user, s, {});
            r.outcome == Saved
            && ParticipantsOf(r.store.participantes, id)
                 == [ParticipantRow(id, "B", Some("leitor")), ParticipantRow(id, "C", None)]
  {
    var b, c := Participant("B", Some("leitor")), Participant("C", None);
    var s := Store([row], ParticipantRows(id, [Participant("A", None), b]));
    SaveEditReplacesParticipants(EditState(Some(row), [b, c], ""), user, s, {}, id);
    TwoRows(id, b, c);
  }

  lemma TwoRows(id: string, b: Participant, c: Participant)
    ensures ParticipantRows(id, [b, c])
              == [ParticipantRow(id, b.pessoaId, b.funcaoLiturgicaId), ParticipantRow(id, c.pessoaId, c.funcaoLiturgicaId)]
  {
  }

  /** Unlike creation, saving an empty list goes through and leaves the
      schedule with no participants. */
  lemma SaveEditAcceptsEmptyList(row: EscalaRow, observacoes: string, user: Option<string>, s: Store)
    ensures var r := SaveEdit(EditState(Some(row), [], observacoes), user, s, {});
            r.outcome == Saved && ParticipantsOf(r.store.participantes, row.id) == []
  {
    SaveEditReplacesParticipants(EditState(Some(row), [], observacoes), user, s, {}, row.id);
  }

  datatype DeleteOutcome =
    | Locked          // outside the edit window: "Não é possível excluir..."
    | Cancelled       // the confirmation was declined
    | DeleteFailed    // the `escalas` delete returned an error
    | Deleted

  datatype DeleteResult = DeleteResult(outcome: DeleteOutcome, store: Store, calls: seq<Call>)

  /** `handleDelete(id, data)`: the participants are deleted first, with the
      result ignored, then the schedule row; only the second error is
      reported. `confirmed` is the answer to the confirmation prompt. */
  function Delete(id: string, data: string, today: Date, confirmed: bool, s: Store, fails: set<Call>)
    : (r: DeleteResult)
    ensures r.outcome == Locked <==> !CanEdit(data, today)
    ensures r.outcome == Cancelled <==> CanEdit(data, today) && !confirmed
    ensures r.outcome in {Locked, Cancelled} ==> r.calls == [] && r.store == s
    ensures r.outcome in {DeleteFailed, Deleted} ==> r.calls == [DeleteParticipants, DeleteEscala]
    ensures r.outcome == Deleted <==> CanEdit(data, today) && confirmed && DeleteEscala !in fails
    ensures r.outcome == DeleteFailed ==> r.store.escalas == s.escalas
    ensures r.outcome in {DeleteFailed, Deleted} && DeleteParticipants !in fails ==>
              forall p :: p in r.store.participantes <==> p in s.participantes && p.escalaId != id
    ensures r.outcome in {DeleteFailed, Deleted} && DeleteParticipants in fails ==>
              r.store.participantes == s.participantes
    ensures r.outcome == Deleted ==> forall e :: e in r.store.escalas <==> e in s.escalas && e.id != id
  {
    if !CanEdit(data, today) then DeleteResult(Locked, s, [])
    else if !confirmed then DeleteResult(Cancelled, s, [])
    else
      var cleared := if DeleteParticipants in fails then s
                     else s.(participantes := WithoutParticipantsOf(s.participantes, id));
      var calls := [DeleteParticipants, DeleteEscala];
      if DeleteEscala in fails then DeleteResult(DeleteFailed, cleared, calls)
      else DeleteResult(Deleted, cleared.(escalas := WithoutEscala(s.escalas, id)), calls)
  }
}
