/** src/lib/profileUtils.ts: the displayed name of a profile and the labels
    of the civil-status and sacrament keys. */
module ProfileUtils {
  import opened Wrappers
  import opened Text
  import opened ProfileTypes

  const PriestTitle: string := "Pe. "

  /** `name.toLowerCase().startsWith('pe.')`. Only ASCII letters lower-case to
      `p` or `e` and only `.` is `.`, so ASCII lower-casing decides it. */
  predicate HasPriestPrefix(name: string) {
    StartsWith(AsciiLowerString(name), "pe.")
  }

  /** `getDisplayName(name, civilStatus)`. */
  function GetDisplayName(name: string, civilStatus: Option<string>): (shown: string)
    ensures (civilStatus == Some(CivilStatus.Padre.Key()) && name != "" && !HasPriestPrefix(name))
              <==> shown == PriestTitle + name
    ensures shown != PriestTitle + name ==> shown == name
  {
    if civilStatus == Some("padre") && name != "" && !HasPriestPrefix(name) then PriestTitle + name
    else name
  }

  /** The name given is always the tail of the name shown. */
  lemma DisplayNameEndsWithName(name: string, civilStatus: Option<string>)
    ensures var shown := GetDisplayName(name, civilStatus);
            |name| <= |shown| && shown[|shown| - |name|..] == name
  {
  }

  /** Applying the title twice adds it once: a titled name already starts
      with "pe.". */
  lemma DisplayNameIdempotent(name: string, civilStatus: Option<string>)
    ensures GetDisplayName(GetDisplayName(name, civilStatus), civilStatus) == GetDisplayName(name, civilStatus)
  {
    var shown := GetDisplayName(name, civilStatus);
    if shown != name {
      var lower := AsciiLowerString(shown);
      assert lower[..3] == "pe.";
    }
  }

  /** The civil-status labels, by stored key. */
  const CivilStatusLabels: map<string, string> := map[
    "solteiro" := "Solteiro(a)",
    "casado" := "Casado(a)",
    "namorando" := "Namorando",
    "religioso" := "Religioso(a)",
    "seminarista" := "Seminarista",
    "diacono" := "Di\U{E1}cono",
    "padre" := "Padre"
  ]

  /** `getCivilStatusLabel(status)`: no status (null or "") shows nothing; a
      known key its label; anything else is shown as stored. */
  function GetCivilStatusLabel(status: Option<string>): (text: string)
    ensures status.None? || status == Some("") <==> text == ""
    ensures status.Some? && status.value in CivilStatusLabels ==> text == CivilStatusLabels[status.value]
    ensures status.Some? && status.value !in CivilStatusLabels ==> text == status.value
  {
    if status.None? || status.value == "" then ""
    else if status.value in CivilStatusLabels then CivilStatusLabels[status.value]
    else status.value
  }

  const SacramentLabels: map<string, string> := map[
    "batismo" := "Batismo",
    "confissao" := "Confiss\U{E3}o",
    "eucaristia" := "Eucaristia",
    "crisma" := "Crisma",
    "matrimonio" := "Matrim\U{F4}nio",
    "ordem" := "Ordem",
    "uncao" := "Un\U{E7}\U{E3}o dos Enfermos"
  ]

  /** `getSacramentLabel(sacrament)`: a known key its label, anything else
      as stored. */
  function GetSacramentLabel(sacrament: string): (text: string)
    ensures sacrament in SacramentLabels ==> text == SacramentLabels[sacrament]
    ensures sacrament !in SacramentLabels ==> text == sacrament
  {
    if sacrament in SacramentLabels then SacramentLabels[sacrament] else sacrament
  }

  /** Every civil status and every sacrament has a label, and it is never
      empty, so the `|| status` fallback only ever applies to unknown keys. */
  lemma EveryKeyHasALabel(c: CivilStatus, s: Sacrament)
    ensures c.Key() in CivilStatusLabels && CivilStatusLabels[c.Key()] != ""
    ensures GetCivilStatusLabel(Some(c.Key())) == CivilStatusLabels[c.Key()]
    ensures s.Key() in SacramentLabels && SacramentLabels[s.Key()] != ""
    ensures GetSacramentLabel(s.Key()) == SacramentLabels[s.Key()]
  {
  }

  /** The label tables have exactly the keys of the two enumerations. */
  lemma LabelKeysAreTheEnumerations()
    ensures forall k :: k in CivilStatusLabels <==> exists c: CivilStatus :: c.Key() == k
    ensures forall k :: k in SacramentLabels <==> exists s: Sacrament :: s.Key() == k
  {
    assert CivilStatus.Solteiro.Key() == "solteiro";
    assert CivilStatus.Casado.Key() == "casado";
    assert CivilStatus.Namorando.Key() == "namorando";
    assert CivilStatus.Religioso.Key() == "religioso";
    assert CivilStatus.Seminarista.Key() == "seminarista";
    assert CivilStatus.Diacono.Key() == "diacono";
    assert CivilStatus.Padre.Key() == "padre";
    assert Sacrament.Batismo.Key() == "batismo";
    assert Sacrament.Confissao.Key() == "confissao";
    assert Sacrament.Eucaristia.Key() == "eucaristia";
    assert Sacrament.Crisma.Key() == "crisma";
    assert Sacrament.Matrimonio.Key() == "matrimonio";
    assert Sacrament.Ordem.Key() == "ordem";
    assert Sacrament.Uncao.Key() == "uncao";
  }
}
