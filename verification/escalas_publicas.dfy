/** The public schedule page, src/pages/EscalasPublicas.tsx: the community
    filter, the list of community names built from a fetch, and the export
    of one schedule as PNG or PDF (file names, the PDF page, and the
    `isDownloading` flag around the rendering). */
module EscalasPublicas {
  import opened Wrappers

  datatype PublicParticipant = PublicParticipant(nomeCompleto: string, funcao: string, funcaoLiturgica: Option<string>)

  /** One row of the `escalas_publicas` view. */
  datatype EscalaPublica = EscalaPublica(
    id: string,
    data: string,
    horario: string,
    observacoes: Option<string>,
    comunidadeNome: string,
    participantes: seq<PublicParticipant>)

  /** The select's value that stands for every community. */
  const AllCommunities: string := "todas"

  /** `filteredEscalas`. */
  function FilterEscalas(escalas: seq<EscalaPublica>, selected: string): (r: seq<EscalaPublica>)
    ensures selected == AllCommunities ==> r == escalas
    ensures selected != AllCommunities ==>
              forall e :: e in r <==> e in escalas && e.comunidadeNome == selected
    ensures |r| <= |escalas|
  {
    if selected == AllCommunities then escalas else OfCommunity(escalas, selected)
  }

  /** `escalas.filter(e => e.comunidade_nome === name)`. */
  function OfCommunity(escalas: seq<EscalaPublica>, name: string): (r: seq<EscalaPublica>)
    ensures |r| <= |escalas|
    ensures forall e :: e in r <==> e in escalas && e.comunidadeNome == name
  {
    if |escalas| == 0 then []
    else (if escalas[0].comunidadeNome == name then [escalas[0]] else []) + OfCommunity(escalas[1..], name)
  }

  /** The filter keeps the original order: it distributes over
      concatenation (and keeps a single schedule iff its community matches). */
  lemma {:induction false} OfCommunityKeepsOrder(a: seq<EscalaPublica>, b: seq<EscalaPublica>, name: string)
    ensures OfCommunity(a + b, name) == OfCommunity(a, name) + OfCommunity(b, name)
    decreases |a|
  {
    if |a| == 0 {
      assert a + b == b;
    } else {
      assert (a + b)[0] == a[0] && (a + b)[1..] == a[1..] + b;
      OfCommunityKeepsOrder(a[1..], b, name);
    }
  }

  /** A community that is actually named "todas" cannot be singled out:
      choosing it shows every schedule. */
  lemma CommunityNamedTodasShowsAll(escalas: seq<EscalaPublica>)
    ensures FilterEscalas(escalas, "todas") == escalas
  {
  }

  /** The names of the fetched schedules' communities, in row order. */
  function CommunityNames(escalas: seq<EscalaPublica>): (names: seq<string>)
    ensures |names| == |escalas|
    ensures forall i :: 0 <= i < |escalas| ==> names[i] == escalas[i].comunidadeNome
  {
    seq(|escalas|, i requires 0 <= i < |escalas| => escalas[i].comunidadeNome)
  }

  predicate NoDuplicateNames(names: seq<string>) {
    forall i, j :: 0 <= i < j < |names| ==> names[i] != names[j]
  }

  /** The position of a value's first occurrence. */
  function FirstIndex(s: seq<string>, x: string): (k: nat)
    requires x in s
    ensures k < |s| && s[k] == x
    ensures forall j :: 0 <= j < k ==> s[j] != x
  {
    if s[0] == x then 0 else 1 + FirstIndex(s[1..], x)
  }

  /** `[...new Set(names)]`: each value once, where it first occurs. */
  function Distinct(s: seq<string>): (r: seq<string>)
    ensures NoDuplicateNames(r)
    ensures forall x :: x in r <==> x in s
    decreases |s|
  {
    if |s| == 0 then []
    else
      var init := Distinct(s[..|s| - 1]);
      var last := s[|s| - 1];
      assert s == s[..|s| - 1] + [last];
      if last in s[..|s| - 1] then init else init + [last]
  }

  /** `Distinct` lists the values in the order of their first occurrence. */
  lemma {:induction false} DistinctFirstOccurrenceOrder(s: seq<string>)
    ensures forall a, b :: 0 <= a < b < |Distinct(s)| ==> FirstIndex(s, Distinct(s)[a]) < FirstIndex(s, Distinct(s)[b])
    decreases |s|
  {
    if |s| > 0 {
      var init := s[..|s| - 1];
      var last := s[|s| - 1];
      var r0 := Distinct(init);
      DistinctFirstOccurrenceOrder(init);
      forall x | x in init ensures FirstIndex(s, x) == FirstIndex(init, x) {
        FirstIndexOfPrefix(init, s, x);
      }
      var r := Distinct(s);
      assert s[..|s| - 1] == init;
      assert r == if last in init then r0 else r0 + [last];
      forall a, b | 0 <= a < b < |r| ensures FirstIndex(s, r[a]) < FirstIndex(s, r[b]) {
        assert r[a] == r0[a] && r0[a] in init;
        if b < |r0| {
          assert r[b] == r0[b] && r0[b] in init;
        } else {
          assert r[b] == last && last !in init;
          assert FirstIndex(s, last) == |s| - 1;
        }
      }
    }
  }

  lemma FirstIndexOfPrefix(p: seq<string>, s: seq<string>, x: string)
    requires x in p && |p| <= |s| && s[..|p|] == p
    ensures FirstIndex(s, x) == FirstIndex(p, x)
  {
    var k := FirstIndex(p, x);
    assert s[k] == p[k];
    forall j | 0 <= j < k ensures s[j] != x {
      assert s[j] == p[j];
    }
  }

  /** The community list computed with a loop over the names, as the `Set`
      constructor does, and shown to agree with `Distinct`. */
  method UniqueNames(names: seq<string>) returns (r: seq<string>)
    ensures r == Distinct(names)
    ensures NoDuplicateNames(r) && forall x :: x in r <==> x in names
  {
    r := [];
    var seen: set<string> := {};
    var i := 0;
    while i < |names|
      invariant 0 <= i <= |names|
      invariant r == Distinct(names[..i])
      invariant seen == set x | x in names[..i]
    {
      assert names[..i + 1][..i] == names[..i];
      if names[i] !in seen {
        r := r + [names[i]];
        seen := seen + {names[i]};
      }
      i := i + 1;
    }
    assert names[..i] == names;
  }

  /** The page state a fetch writes. */
  datatype PageState = PageState(escalas: seq<EscalaPublica>, comunidades: seq<string>, selected: string)

  /** The outcome of the `escalas_publicas` query; `Ok(None)` is a response
      without data. */
  datatype FetchResponse = FetchError | Ok(data: Option<seq<EscalaPublica>>)

  /** `fetchData`: an error changes nothing; otherwise the schedules are the
      data (none as empty) and the communities their distinct names. The
      selected community is kept. */
  function ApplyFetch(st: PageState, response: FetchResponse): (r: PageState)
    ensures response.FetchError? ==> r == st
    ensures response.Ok? ==>
              r.escalas == response.data.GetOr([]) && r.selected == st.selected
              && NoDuplicateNames(r.comunidades)
              && (forall x :: x in r.comunidades <==> exists e :: e in r.escalas && e.comunidadeNome == x)
  {
    match response
    case FetchError => st
    case Ok(data) =>
      var escalas := data.GetOr([]);
      var names := CommunityNames(escalas);
      assert forall x :: x in names <==> exists e :: e in escalas && e.comunidadeNome == x by {
        forall x | x in names ensures exists e :: e in escalas && e.comunidadeNome == x {
          var k :| 0 <= k < |names| && names[k] == x;
          assert escalas[k] in escalas;
        }
        forall x | exists e :: e in escalas && e.comunidadeNome == x ensures x in names {
          var e :| e in escalas && e.comunidadeNome == x;
          var k :| 0 <= k < |escalas| && escalas[k] == e;
          assert names[k] == x;
        }
      }
      PageState(escalas, Distinct(names), st.selected)
  }

  /** The two export formats. */
  datatype ExportFormat = Png | Pdf {
    function Extension(): string {
      match this
      case Png => "png"
      case Pdf => "pdf"
    }
  }

  /** A template-string interpolation of a field of a missing object
      (`selectedEscala?.data` with no selection) writes "undefined". */
  const Undefined: string := "undefined"

  /** `escala-${selectedEscala?.data}-${selectedEscala?.horario}.<ext>`. */
  function ExportFileName(selected: Option<EscalaPublica>, format: ExportFormat): (name: string)
    ensures selected.Some? ==>
              name == "escala-" + selected.value.data + "-" + selected.value.horario + "." + format.Extension()
    ensures selected.None? ==> name == "escala-" + Undefined + "-" + Undefined + "." + format.Extension()
  {
    var data := if selected.Some? then selected.value.data else Undefined;
    var horario := if selected.Some? then selected.value.horario else Undefined;
    "escala-" + data + "-" + horario + "." + format.Extension()
  }

  /** For schedules whose dates are written with the same number of
      characters (as `yyyy-MM-dd` dates are), the file name tells apart the
      date, the time and the format. */
  lemma ExportFileNameDeterminesSchedule(e1: EscalaPublica, e2: EscalaPublica, f1: ExportFormat, f2: ExportFormat)
    requires |e1.data| == |e2.data|
    requires ExportFileName(Some(e1), f1) == ExportFileName(Some(e2), f2)
    ensures e1.data == e2.data && e1.horario == e2.horario && f1 == f2
  {
    FileNamePieces(e1.data, e1.horario, f1.Extension());
    FileNamePieces(e2.data, e2.horario, f2.Extension());
  }

  /** Where the three fields sit in a file name. */
  lemma FileNamePieces(data: string, horario: string, ext: string)
    ensures var n := "escala-" + data + "-" + horario + "." + ext;
            |n| == 9 + |data| + |horario| + |ext|
            && n[7..7 + |data|] == data
            && n[8 + |data|..|n| - |ext| - 1] == horario
            && n[|n| - |ext|..] == ext
  {
  }

  datatype Orientation = Portrait | Landscape

  /** The options of `new jsPDF(...)` and the `addImage` placement for a
      canvas of `width` by `height` pixels. */
  datatype PdfLayout = PdfLayout(
    orientation: Orientation,
    pageWidth: nat, pageHeight: nat,
    imageX: nat, imageY: nat, imageWidth: nat, imageHeight: nat)

  function LayoutPdf(width: nat, height: nat): (p: PdfLayout)
    ensures p.orientation == Landscape <==> width > height
    ensures p.pageWidth == width && p.pageHeight == height
    ensures p.imageX == 0 && p.imageY == 0 && p.imageWidth == width && p.imageHeight == height
  {
    PdfLayout(if width > height then Landscape else Portrait, width, height, 0, 0, width, height)
  }

  /** The page jsPDF creates from an orientation and a format: it swaps the
      two sides when they disagree with the orientation. */
  function JsPdfPage(orientation: Orientation, width: nat, height: nat): (wh: (nat, nat))
    ensures orientation == Landscape ==> wh.0 >= wh.1
    ensures orientation == Portrait ==> wh.0 <= wh.1
    ensures wh == (width, height) || wh == (height, width)
  {
    match orientation
    case Landscape => if height > width then (height, width) else (width, height)
    case Portrait => if width > height then (height, width) else (width, height)
  }

  /** The orientation chosen never makes jsPDF swap the sides, so the page is
      exactly the canvas and the image placed at (0, 0) at full size covers
      it, for square canvases too. */
  lemma PdfPageIsCanvas(width: nat, height: nat)
    ensures var p := LayoutPdf(width, height);
            JsPdfPage(p.orientation, p.pageWidth, p.pageHeight) == (width, height)
            && p.imageWidth == JsPdfPage(p.orientation, p.pageWidth, p.pageHeight).0
            && p.imageHeight == JsPdfPage(p.orientation, p.pageWidth, p.pageHeight).1
  {
  }

  /** One press of a download button: the values `isDownloading` takes, in
      order, and the file saved, if any. */
  datatype DownloadRun = DownloadRun(flagValues: seq<bool>, saved: Option<string>)

  /** `handleDownloadPNG` / `handleDownloadPDF`. Nothing happens without the
      preview element; otherwise the flag is set, the schedule is rendered
      and saved, and the `finally` clears the flag whether or not rendering
      failed. */
  function Download(selected: Option<EscalaPublica>, format: ExportFormat, previewShown: bool, renderFails: bool)
    : (r: DownloadRun)
    ensures !previewShown ==> r.flagValues == [] && r.saved.None?
    ensures previewShown ==> r.flagValues == [true, false]
    ensures r.saved.Some? <==> previewShown && !renderFails
    ensures r.saved.Some? ==> r.saved.value == ExportFileName(selected, format)
  {
    if !previewShown then DownloadRun([], None)
    else if renderFails then DownloadRun([true, false], None)
    else DownloadRun([true, false], Some(ExportFileName(selected, format)))
  }

  /** One press of a download button, with the conditions it meets. */
  datatype Press = Press(selected: Option<EscalaPublica>, format: ExportFormat, previewShown: bool, renderFails: bool)

  /** `isDownloading` after a series of presses, starting from
      `useState(false)`: each press that runs leaves the last value it set. */
  function FlagAfter(presses: seq<Press>): bool {
    if |presses| == 0 then false
    else
      var p := presses[|presses| - 1];
      var run := Download(p.selected, p.format, p.previewShown, p.renderFails);
      if |run.flagValues| == 0 then FlagAfter(presses[..|presses| - 1])
      else run.flagValues[|run.flagValues| - 1]
  }

  /** The files saved by a series of presses, in order. */
  function SavedFiles(presses: seq<Press>): seq<string> {
    if |presses| == 0 then []
    else
      var p := presses[|presses| - 1];
      var run := Download(p.selected, p.format, p.previewShown, p.renderFails);
      SavedFiles(presses[..|presses| - 1]) + (if run.saved.Some? then [run.saved.value] else [])
  }

  /** The buttons are disabled while the flag is set. Whatever series of
      presses came before, failed renders included, the flag is false, so
      every press finds the buttons enabled; and each press that renders
      adds exactly its own file to what was saved. */
  lemma {:induction false} EveryPressFindsButtonsEnabled(presses: seq<Press>, next: Press)
    ensures !FlagAfter(presses)
    ensures SavedFiles(presses + [next])
              == SavedFiles(presses) + (if next.previewShown && !next.renderFails
                                        then [ExportFileName(next.selected, next.format)] else [])
    decreases |presses|
  {
    assert (presses + [next])[..|presses|] == presses;
    if |presses| > 0 {
      EveryPressFindsButtonsEnabled(presses[..|presses| - 1], presses[|presses| - 1]);
    }
  }
}
