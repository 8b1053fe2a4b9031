/** The two tables the schedule screens write, `escalas` (one row per
    schedule) and `escala_participantes` (one row per person on a schedule),
    as an in-memory store, with the insert, update and delete calls the
    screens issue. A call either applies in full or fails and changes
    nothing; which calls fail is a parameter of each screen operation. */
module EscalaStore {
  import opened Wrappers
  import opened Roster

  datatype EscalaRow = EscalaRow(
    id: string,
    data: string,
    horario: string,
    comunidadeId: string,
    observacoes: Option<string>,
    createdBy: Option<string>,
    updatedBy: Option<string>)

  datatype ParticipantRow = ParticipantRow(escalaId: string, pessoaId: string, funcaoLiturgicaId: Option<string>)

  datatype Store = Store(escalas: seq<EscalaRow>, participantes: seq<ParticipantRow>)

  /** The remote calls, in the order a screen may issue them. */
  datatype Call = InsertEscala | InsertParticipants | UpdateEscala | DeleteParticipants | DeleteEscala

  /** The participant rows of one schedule, in stored order
      (`.eq("escala_id", id)`). */
  function ParticipantsOf(rows: seq<ParticipantRow>, escalaId: string): (r: seq<ParticipantRow>)
    ensures |r| <= |rows|
    ensures forall p :: p in r <==> p in rows && p.escalaId == escalaId
  {
    if |rows| == 0 then []
    else (if rows[0].escalaId == escalaId then [rows[0]] else []) + ParticipantsOf(rows[1..], escalaId)
  }

  /** `delete().eq("escala_id", id)` on `escala_participantes`. */
  function WithoutParticipantsOf(rows: seq<ParticipantRow>, escalaId: string): (r: seq<ParticipantRow>)
    ensures |r| <= |rows|
    ensures forall p :: p in r <==> p in rows && p.escalaId != escalaId
  {
    if |rows| == 0 then []
    else (if rows[0].escalaId != escalaId then [rows[0]] else []) + WithoutParticipantsOf(rows[1..], escalaId)
  }

  lemma {:induction false} ParticipantsOfAppend(a: seq<ParticipantRow>, b: seq<ParticipantRow>, escalaId: string)
    ensures ParticipantsOf(a + b, escalaId) == ParticipantsOf(a, escalaId) + ParticipantsOf(b, escalaId)
    decreases |a|
  {
    if |a| == 0 {
      assert a + b == b;
    } else {
      assert (a + b)[0] == a[0] && (a + b)[1..] == a[1..] + b;
      ParticipantsOfAppend(a[1..], b, escalaId);
    }
  }

  /** A schedule no row refers to has no participants. */
  lemma ParticipantsOfAbsent(rows: seq<ParticipantRow>, escalaId: string)
    requires forall p :: p in rows ==> p.escalaId != escalaId
    ensures ParticipantsOf(rows, escalaId) == []
  {
  }

  /** Deleting one schedule's participants empties that schedule's list and
      leaves every other schedule's list as it was. */
  lemma {:induction false} ParticipantsAfterDelete(rows: seq<ParticipantRow>, deleted: string, escalaId: string)
    ensures ParticipantsOf(WithoutParticipantsOf(rows, deleted), escalaId)
              == if escalaId == deleted then [] else ParticipantsOf(rows, escalaId)
    decreases |rows|
  {
    if |rows| > 0 {
      ParticipantsAfterDelete(rows[1..], deleted, escalaId);
      var head := if rows[0].escalaId != deleted then [rows[0]] else [];
      ParticipantsOfAppend(head, WithoutParticipantsOf(rows[1..], deleted), escalaId);
    }
  }

  /** `participantes.map(p => ({ escala_id, pessoa_id: p.pessoaId,
      funcao_liturgica_id: p.funcaoLiturgicaId }))`. */
  function ParticipantRows(escalaId: string, roster: seq<Participant>): (r: seq<ParticipantRow>)
    ensures |r| == |roster|
    ensures forall i :: 0 <= i < |r| ==>
              r[i].escalaId == escalaId && r[i].pessoaId == roster[i].pessoaId
              && r[i].funcaoLiturgicaId == roster[i].funcaoLiturgicaId
  {
    if |roster| == 0 then []
    else [ParticipantRow(escalaId, roster[0].pessoaId, roster[0].funcaoLiturgicaId)]
         + ParticipantRows(escalaId, roster[1..])
  }

  /** The working list the edit dialog builds from stored rows: the
      `(pessoa_id, funcao_liturgica_id)` pairs in stored order. */
  function RosterOf(rows: seq<ParticipantRow>): (r: seq<Participant>)
    ensures |r| == |rows|
    ensures forall i :: 0 <= i < |r| ==>
              r[i].pessoaId == rows[i].pessoaId && r[i].funcaoLiturgicaId == rows[i].funcaoLiturgicaId
  {
    if |rows| == 0 then [] else [Participant(rows[0].pessoaId, rows[0].funcaoLiturgicaId)] + RosterOf(rows[1..])
  }

  /** Storing a working list and reading it back gives the list. */
  lemma RosterOfParticipantRows(escalaId: string, roster: seq<Participant>)
    ensures RosterOf(ParticipantRows(escalaId, roster)) == roster
  {
    var back := RosterOf(ParticipantRows(escalaId, roster));
    assert forall i :: 0 <= i < |roster| ==> back[i] == roster[i];
  }

  /** The rows written for a schedule all belong to it. */
  lemma {:induction false} ParticipantsOfRows(escalaId: string, roster: seq<Participant>, other: string)
    ensures ParticipantsOf(ParticipantRows(escalaId, roster), other)
              == if other == escalaId then ParticipantRows(escalaId, roster) else []
    decreases |roster|
  {
    if |roster| > 0 {
      ParticipantsOfRows(escalaId, roster[1..], other);
      var rows := ParticipantRows(escalaId, roster);
      assert rows[1..] == ParticipantRows(escalaId, roster[1..]);
    }
  }

  /** `update({ observacoes, updated_by: user?.id }).eq("id", id)`: the
      matched rows get the new notes and, when there is a signed-in user,
      that user as editor. Without one `updated_by` is `undefined`, a key the
      JSON body leaves out, so the column keeps its value. Every other column
      and row is kept. */
  function UpdateEscalaRows(rows: seq<EscalaRow>, id: string, observacoes: Option<string>, user: Option<string>)
    : (r: seq<EscalaRow>)
    ensures |r| == |rows|
    ensures forall i :: 0 <= i < |rows| && rows[i].id != id ==> r[i] == rows[i]
    ensures forall i :: 0 <= i < |rows| && rows[i].id == id ==>
              r[i] == rows[i].(observacoes := observacoes, updatedBy := if user.Some? then user else rows[i].updatedBy)
  {
    if |rows| == 0 then []
    else [if rows[0].id == id then rows[0].(observacoes := observacoes, updatedBy := if user.Some? then user else rows[0].updatedBy) else rows[0]]
         + UpdateEscalaRows(rows[1..], id, observacoes, user)
  }

  /** `delete().eq("id", id)` on `escalas`. */
  function WithoutEscala(rows: seq<EscalaRow>, id: string): (r: seq<EscalaRow>)
    ensures |r| <= |rows|
    ensures forall e :: e in r <==> e in rows && e.id != id
  {
    if |rows| == 0 then []
    else (if rows[0].id != id then [rows[0]] else []) + WithoutEscala(rows[1..], id)
  }
}
