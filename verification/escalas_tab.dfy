/** The "Nova Escala" form of src/components/dashboard/EscalasTab.tsx and its
    `handleSaveEscala`: validation, the parent insert into `escalas`, then one
    batch insert of the participants, then the partial form reset. The
    roster helpers of the same file are in module Roster. */
module EscalasTab {
  import opened Wrappers
  import opened Calendar
  import opened Roster
  import opened EscalaStore

  /** The four times the "Horário" select offers. */
  const HorarioOptions: seq<string> := ["08:00", "10:00", "19:30", "20:00"]

  /** The form's state. `date` is None when the calendar has no selection. */
  datatype CreateForm = CreateForm(
    comunidade: string,
    date: Option<Date>,
    horario: string,
    participantes: seq<Participant>,
    observacoes: string)

  /** The form as first shown: no community, today's date, "08:00", nobody
      selected, no notes. */
  function InitialForm(today: Date): (f: CreateForm)
    ensures f.horario == HorarioOptions[0] && f.date == Some(today)
    ensures f.comunidade == "" && f.participantes == [] && f.observacoes == ""
  {
    CreateForm("", Some(today), "08:00", [], "")
  }

  /** The guard "Preencha todos os campos obrigatórios". */
  predicate Complete(f: CreateForm) {
    f.comunidade != "" && f.date.Some? && |f.participantes| > 0
  }

  datatype CreateOutcome =
    | Incomplete           // the guard refused; nothing was sent
    | ParentFailed         // the `escalas` insert returned an error
    | ParticipantsFailed   // the parent row exists; the participant insert failed
    | Created

  datatype CreateResult = CreateResult(outcome: CreateOutcome, store: Store, form: CreateForm, calls: seq<Call>)

  /** The row inserted into `escalas`: the date as `yyyy-MM-dd`, empty notes
      as null, and the signed-in user as both author columns. With nobody
      signed in the two keys are left out of the insert and the columns get
      their default, taken here to be null. */
  function NewEscalaRow(f: CreateForm, user: Option<string>, newId: string): (row: EscalaRow)
    requires f.date.Some?
    ensures row.id == newId && row.horario == f.horario && row.comunidadeId == f.comunidade
    ensures ValidDate(f.date.value) ==> ParseIsoDate(row.data) == f.date
    ensures row.observacoes.None? <==> f.observacoes == ""
    ensures row.observacoes.Some? ==> row.observacoes.value == f.observacoes
    ensures row.createdBy == row.updatedBy == user
  {
    ParseFormatRoundTrip(f.date.value);
    EscalaRow(newId, FormatIsoDate(f.date.value), f.horario, f.comunidade,
              if f.observacoes == "" then None else Some(f.observacoes), user, user)
  }

  /** On success the participant list and the notes are cleared; community,
      date and time stay for the next schedule. */
  function ResetAfterCreate(f: CreateForm): (g: CreateForm)
    ensures g.participantes == [] && g.observacoes == ""
    ensures g.comunidade == f.comunidade && g.date == f.date && g.horario == f.horario
  {
    f.(participantes := [], observacoes := "")
  }

  /** `handleSaveEscala`. The database supplies `newId`; `fails` names the
      calls that return an error. */
  function SaveEscala(f: CreateForm, user: Option<string>, newId: string, s: Store, fails: set<Call>)
    : (r: CreateResult)
    ensures r.outcome == Incomplete <==> !Complete(f)
    ensures r.outcome == Incomplete ==> r.calls == []
    ensures r.outcome != Incomplete ==> |r.calls| >= 1 && r.calls[0] == InsertEscala
    ensures r.outcome == ParentFailed <==> Complete(f) && InsertEscala in fails
    ensures r.outcome in {Incomplete, ParentFailed} ==> r.store == s
    ensures r.outcome == Created <==> Complete(f) && InsertEscala !in fails && InsertParticipants !in fails
    ensures r.outcome != Created <==> r.form == f
    ensures r.outcome == Created ==> r.form == ResetAfterCreate(f)
    ensures r.outcome in {ParticipantsFailed, Created} ==>
              r.calls == [InsertEscala, InsertParticipants]
              && r.store.escalas == s.escalas + [NewEscalaRow(f, user, newId)]
    ensures r.outcome == ParticipantsFailed ==> r.store.participantes == s.participantes
    ensures r.outcome == Created ==>
              r.store.participantes == s.participantes + ParticipantRows(newId, f.participantes)
  {
    if !Complete(f) then CreateResult(Incomplete, s, f, [])
    else if InsertEscala in fails then CreateResult(ParentFailed, s, f, [InsertEscala])
    else
      var withParent := s.(escalas := s.escalas + [NewEscalaRow(f, user, newId)]);
      if InsertParticipants in fails then
        CreateResult(ParticipantsFailed, withParent, f, [InsertEscala, InsertParticipants])
      else
        var created := withParent.(participantes := s.participantes + ParticipantRows(newId, f.participantes));
        CreateResult(Created, created, ResetAfterCreate(f), [InsertEscala, InsertParticipants])
  }

  /** A created schedule, read back by its new id from a store where that id
      was unused, lists exactly the form's people with their roles, in the
      order they were ticked. */
  lemma CreatedScheduleReadsBack(f: CreateForm, user: Option<string>, newId: string, s: Store, fails: set<Call>)
    requires SaveEscala(f, user, newId, s, fails).outcome == Created
    requires forall p :: p in s.participantes ==> p.escalaId != newId
    ensures var r := SaveEscala(f, user, newId, s, fails);
            RosterOf(ParticipantsOf(r.store.participantes, newId)) == f.participantes
  {
    var rows := ParticipantRows(newId, f.participantes);
    ParticipantsOfAppend(s.participantes, rows, newId);
    ParticipantsOfAbsent(s.participantes, newId);
    ParticipantsOfRows(newId, f.participantes, newId);
    assert [] + rows == rows;
    RosterOfParticipantRows(newId, f.participantes);
  }

  /** A created schedule leaves every other schedule's participants as they
      were. */
  lemma CreateKeepsOtherSchedules(f: CreateForm, user: Option<string>, newId: string, s: Store,
                                  fails: set<Call>, other: string)
    requires other != newId
    ensures var r := SaveEscala(f, user, newId, s, fails);
            ParticipantsOf(r.store.participantes, other) == ParticipantsOf(s.participantes, other)
  {
    var rows := ParticipantRows(newId, f.participantes);
    ParticipantsOfAppend(s.participantes, rows, other);
    ParticipantsOfRows(newId, f.participantes, other);
    assert ParticipantsOf(s.participantes, other) + [] == ParticipantsOf(s.participantes, other);
  }
}
