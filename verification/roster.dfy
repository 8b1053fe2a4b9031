/** The working list of people on a schedule (escala) and the role (função
    litúrgica) each one serves in. The same helpers appear in
    src/components/dashboard/EscalasTab.tsx and
    src/components/dashboard/ConsultarEscalasTab.tsx: `toggleParticipante`,
    `updateFuncaoLiturgica`, `isPessoaSelecionada`, `getFuncaoLiturgica`. */
module Roster {
  import opened Wrappers

  /** `{ pessoaId, funcaoLiturgicaId }`; a null role is None. */
  datatype Participant = Participant(pessoaId: string, funcaoLiturgicaId: Option<string>)

  /** Each person is listed at most once. */
  predicate NoDuplicates(roster: seq<Participant>) {
    forall i, j :: 0 <= i < j < |roster| ==> roster[i].pessoaId != roster[j].pessoaId
  }

  /** `isPessoaSelecionada`: `participantes.some(p => p.pessoaId === id)`. */
  function IsSelected(roster: seq<Participant>, id: string): (b: bool)
    ensures b <==> exists i :: 0 <= i < |roster| && roster[i].pessoaId == id
  {
    if |roster| == 0 then false
    else roster[0].pessoaId == id || IsSelected(roster[1..], id)
  }

  /** `prev.filter(p => p.pessoaId !== id)`. */
  function RemoveAll(roster: seq<Participant>, id: string): (r: seq<Participant>)
    ensures |r| <= |roster|
  {
    if |roster| == 0 then []
    else (if roster[0].pessoaId == id then [] else [roster[0]]) + RemoveAll(roster[1..], id)
  }

  /** What the filter keeps: exactly the entries without the id, each as
      often as before. */
  lemma {:induction false} RemoveAllContents(roster: seq<Participant>, id: string)
    ensures forall p :: p in RemoveAll(roster, id) <==> p in roster && p.pessoaId != id
    ensures forall p :: multiset(RemoveAll(roster, id))[p] == if p.pessoaId == id then 0 else multiset(roster)[p]
    decreases |roster|
  {
    if |roster| > 0 {
      assert roster == [roster[0]] + roster[1..];
      RemoveAllContents(roster[1..], id);
    }
  }

  /** `toggleParticipante`: a listed person is removed (every entry with that
      id); an unlisted one is appended with no role. */
  function Toggle(roster: seq<Participant>, id: string): (r: seq<Participant>)
    ensures IsSelected(r, id) <==> !IsSelected(roster, id)
    ensures forall p: Participant :: p.pessoaId != id ==> (p in r <==> p in roster)
    ensures !IsSelected(roster, id) ==>
              |r| == |roster| + 1 && r[..|roster|] == roster && r[|roster|] == Participant(id, None)
  {
    if IsSelected(roster, id) then RemoveAllContents(roster, id); RemoveAll(roster, id)
    else
      var r := roster + [Participant(id, None)];
      assert r[|roster|].pessoaId == id;
      r
  }

  /** Removing a person nobody lists changes nothing. */
  lemma {:induction false} RemoveAllAbsent(roster: seq<Participant>, id: string)
    requires !IsSelected(roster, id)
    ensures RemoveAll(roster, id) == roster
    decreases |roster|
  {
    if |roster| > 0 {
      RemoveAllAbsent(roster[1..], id);
    }
  }

  /** Removal distributes over concatenation. */
  lemma {:induction false} RemoveAllAppend(a: seq<Participant>, b: seq<Participant>, id: string)
    ensures RemoveAll(a + b, id) == RemoveAll(a, id) + RemoveAll(b, id)
    decreases |a|
  {
    if |a| == 0 {
      assert a + b == b;
    } else {
      assert (a + b)[0] == a[0] && (a + b)[1..] == a[1..] + b;
      RemoveAllAppend(a[1..], b, id);
    }
  }

  /** A duplicate-free list splits into a head nobody else shares and a
      duplicate-free tail. */
  lemma NoDuplicatesUncons(roster: seq<Participant>)
    requires |roster| > 0 && NoDuplicates(roster)
    ensures NoDuplicates(roster[1..])
    ensures forall p :: p in roster[1..] ==> p.pessoaId != roster[0].pessoaId
  {
    var tail := roster[1..];
    forall i, j | 0 <= i < j < |tail| ensures tail[i].pessoaId != tail[j].pessoaId {
      assert tail[i] == roster[i + 1] && tail[j] == roster[j + 1];
    }
    forall p | p in tail ensures p.pessoaId != roster[0].pessoaId {
      var k :| 0 <= k < |tail| && tail[k] == p;
      assert tail[k] == roster[k + 1];
    }
  }

  /** The converse: a head nobody in a duplicate-free tail shares. */
  lemma NoDuplicatesCons(head: Participant, tail: seq<Participant>)
    requires NoDuplicates(tail)
    requires forall p :: p in tail ==> p.pessoaId != head.pessoaId
    ensures NoDuplicates([head] + tail)
  {
    var r := [head] + tail;
    forall i, j | 0 <= i < j < |r| ensures r[i].pessoaId != r[j].pessoaId {
      assert r[j] == tail[j - 1];
      if i > 0 {
        assert r[i] == tail[i - 1];
      } else {
        assert tail[j - 1] in tail;
      }
    }
  }

  /** Removal keeps a list duplicate-free. */
  lemma {:induction false} RemoveAllKeepsNoDuplicates(roster: seq<Participant>, id: string)
    requires NoDuplicates(roster)
    ensures NoDuplicates(RemoveAll(roster, id))
    decreases |roster|
  {
    if |roster| > 0 {
      NoDuplicatesUncons(roster);
      RemoveAllKeepsNoDuplicates(roster[1..], id);
      if roster[0].pessoaId != id {
        RemoveAllContents(roster[1..], id);
        NoDuplicatesCons(roster[0], RemoveAll(roster[1..], id));
      }
    }
  }

  /** Toggling keeps each person listed at most once. */
  lemma ToggleKeepsNoDuplicates(roster: seq<Participant>, id: string)
    requires NoDuplicates(roster)
    ensures NoDuplicates(Toggle(roster, id))
  {
    if IsSelected(roster, id) {
      RemoveAllKeepsNoDuplicates(roster, id);
    } else {
      var r := Toggle(roster, id);
      forall i, j | 0 <= i < j < |r| ensures r[i].pessoaId != r[j].pessoaId {
        if j == |roster| {
          assert r[i] == roster[i];
        } else {
          assert r[i] == roster[i] && r[j] == roster[j];
        }
      }
    }
  }

  /** Ticking an unlisted person and unticking them again restores the list. */
  lemma ToggleTwiceRestores(roster: seq<Participant>, id: string)
    requires !IsSelected(roster, id)
    ensures Toggle(Toggle(roster, id), id) == roster
  {
    var once := roster + [Participant(id, None)];
    assert IsSelected(once, id) by {
      assert once[|roster|].pessoaId == id;
    }
    RemoveAllAppend(roster, [Participant(id, None)], id);
    RemoveAllAbsent(roster, id);
    assert RemoveAll([Participant(id, None)], id) == [];
    assert roster + [] == roster;
  }

  /** `updateFuncaoLiturgica`: every entry for the person gets the new role;
      nothing else changes. */
  function UpdateRole(roster: seq<Participant>, id: string, role: Option<string>): (r: seq<Participant>)
    ensures |r| == |roster|
    ensures forall i :: 0 <= i < |roster| ==> r[i].pessoaId == roster[i].pessoaId
    ensures forall i :: 0 <= i < |roster| && roster[i].pessoaId != id ==> r[i] == roster[i]
    ensures forall i :: 0 <= i < |roster| && roster[i].pessoaId == id ==> r[i].funcaoLiturgicaId == role
  {
    if |roster| == 0 then []
    else [if roster[0].pessoaId == id then roster[0].(funcaoLiturgicaId := role) else roster[0]]
         + UpdateRole(roster[1..], id, role)
  }

  /** Assigning a role selects nobody new and drops nobody, and keeps the list
      duplicate-free. */
  lemma UpdateRoleKeepsSelection(roster: seq<Participant>, id: string, role: Option<string>, who: string)
    ensures IsSelected(UpdateRole(roster, id, role), who) == IsSelected(roster, who)
    ensures NoDuplicates(roster) ==> NoDuplicates(UpdateRole(roster, id, role))
  {
    var r := UpdateRole(roster, id, role);
    if IsSelected(roster, who) {
      var i :| 0 <= i < |roster| && roster[i].pessoaId == who;
      assert r[i].pessoaId == who;
    }
    if IsSelected(r, who) {
      var i :| 0 <= i < |r| && r[i].pessoaId == who;
      assert roster[i].pessoaId == who;
    }
  }

  /** `participantes.find(p => p.pessoaId === id)`. */
  function FindFirst(roster: seq<Participant>, id: string): (r: Option<nat>)
    ensures r.None? <==> !IsSelected(roster, id)
    ensures r.Some? ==> r.value < |roster| && roster[r.value].pessoaId == id
    ensures r.Some? ==> forall j :: 0 <= j < r.value ==> roster[j].pessoaId != id
  {
    if |roster| == 0 then None
    else if roster[0].pessoaId == id then Some(0)
    else match FindFirst(roster[1..], id)
         case None => None
         case Some(k) => Some(k + 1)
  }

  /** `getFuncaoLiturgica`: the role of the first entry for the person, with a
      missing entry, a null role and the empty string all reading as null. */
  function GetRole(roster: seq<Participant>, id: string): (r: Option<string>)
    ensures FindFirst(roster, id).None? ==> r.None?
    ensures FindFirst(roster, id).Some? ==>
              var first := roster[FindFirst(roster, id).value].funcaoLiturgicaId;
              r == if first == Some("") then None else first
    ensures r.Some? ==> r.value != "" && IsSelected(roster, id)
    ensures r.Some? ==> exists i :: 0 <= i < |roster| && roster[i].pessoaId == id
                                    && roster[i].funcaoLiturgicaId == r
  {
    match FindFirst(roster, id)
    case None => None
    case Some(k) => if roster[k].funcaoLiturgicaId == Some("") then None else roster[k].funcaoLiturgicaId
  }

  /** The two role selects: the create form's, whose "Nenhuma função
      específica" item has the value "", and the edit dialog's, where it has
      the value "none". */
  datatype RoleSelect = CreateSelect | EditSelect {
    function NoRole(): string {
      match this
      case CreateSelect => ""
      case EditSelect => "none"
    }
  }

  /** A select's `onValueChange`: the no-role value stores null
      (`value || null` on create, `value === "none" ? null : value` on edit). */
  function ChooseRole(select: RoleSelect, value: string): (r: Option<string>)
    ensures r.None? <==> value == select.NoRole()
    ensures r.Some? ==> r.value == value
  {
    if value == select.NoRole() then None else Some(value)
  }

  /** After choosing a role for a listed person, reading it back gives the
      chosen role (an empty id reads as none); for anyone else the role is
      unchanged. */
  lemma ChosenRoleReadsBack(roster: seq<Participant>, id: string, select: RoleSelect, value: string, other: string)
    requires other != id
    ensures GetRole(UpdateRole(roster, id, ChooseRole(select, value)), id)
              == (if IsSelected(roster, id) && value != "" then ChooseRole(select, value) else None)
    ensures GetRole(UpdateRole(roster, id, ChooseRole(select, value)), other) == GetRole(roster, other)
  {
    var role := ChooseRole(select, value);
    var r := UpdateRole(roster, id, role);
    UpdateRoleKeepsSelection(roster, id, role, id);
    FindFirstUnchanged(roster, id, role, id);
    FindFirstUnchanged(roster, id, role, other);
  }

  /** Role updates never move the first entry of anybody. */
  lemma FindFirstUnchanged(roster: seq<Participant>, id: string, role: Option<string>, who: string)
    ensures FindFirst(UpdateRole(roster, id, role), who) == FindFirst(roster, who)
  {
    var r := UpdateRole(roster, id, role);
    UpdateRoleKeepsSelection(roster, id, role, who);
  }

  /** What a select shows for a role: `funcaoAtual || ""` on create,
      `funcaoAtual || "none"` on edit. */
  function Shown(select: RoleSelect, role: Option<string>): string {
    role.GetOr(select.NoRole())
  }

  /** Re-selecting the shown value stores the role that was read: always on
      create, and on edit unless a role's id is literally "none". */
  lemma ShownRoleRoundTrip(roster: seq<Participant>, id: string, select: RoleSelect)
    ensures GetRole(roster, id) != Some(select.NoRole()) ==>
              ChooseRole(select, Shown(select, GetRole(roster, id))) == GetRole(roster, id)
    ensures ChooseRole(CreateSelect, Shown(CreateSelect, GetRole(roster, id))) == GetRole(roster, id)
  {
  }
}
