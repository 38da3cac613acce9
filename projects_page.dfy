// The projects page's state updates: dropping files into the selection,
// removing one selected file, creating a draft project from the dialog's
// form, opening and closing a project's menu and deleting the project it was
// opened for; and the two maps from a status to its chip.

module ProjectsPage {
  import opened Wrappers
  import opened Text

  const PDF_TYPE := "application/pdf"

  /** A file dropped on the page, with the MIME type the browser gave it. */
  datatype DroppedFile = DroppedFile(name: string, size: nat, mimeType: string)

  datatype PdfFile = PdfFile(id: string, name: string, size: nat, pages: Option<nat>)

  /** A project card; `createdAt` is a clock reading in milliseconds. */
  datatype Project = Project(
    id: string, name: string, description: Option<string>, files: seq<PdfFile>, createdAt: nat, status: string)

  /**
   * The page's state: its projects, the files selected for upload, the
   * new-project dialog and its two fields, and the menu with the project it
   * was opened for.
   */
  datatype PageState = PageState(
    projects: seq<Project>, selectedFiles: seq<DroppedFile>, dialogOpen: bool,
    newName: string, newDescription: string, menuOpen: bool, selectedProject: Option<string>)

  // ---------------------------------------------------------------- drop

  /** The PDF files among `files`, in order. */
  function PdfOnly(files: seq<DroppedFile>): seq<DroppedFile>
    decreases |files|
  {
    if files == [] then []
    else PdfOnly(files[..|files| - 1]) + (if files[|files| - 1].mimeType == PDF_TYPE then [files[|files| - 1]] else [])
  }

  /** The filter keeps exactly the PDF files. */
  lemma {:induction false} PdfOnlyExactly(files: seq<DroppedFile>)
    ensures forall f :: f in PdfOnly(files) <==> f in files && f.mimeType == PDF_TYPE
    decreases |files|
  {
    if files != [] {
      var init := files[..|files| - 1];
      PdfOnlyExactly(init);
      assert files == init + [files[|files| - 1]];
    }
  }

  /** Filtering a concatenation filters each part in turn, so the order is kept. */
  lemma {:induction false} PdfOnlyAppend(a: seq<DroppedFile>, b: seq<DroppedFile>)
    ensures PdfOnly(a + b) == PdfOnly(a) + PdfOnly(b)
    decreases |b|
  {
    if b == [] {
      assert a + b == a;
    } else {
      var init := b[..|b| - 1];
      assert (a + b)[..|a + b| - 1] == a + init;
      PdfOnlyAppend(a, init);
    }
  }

  /** `onDrop`: the accepted PDF files go after the files already selected. */
  function OnDrop(st: PageState, accepted: seq<DroppedFile>): (r: PageState)
    ensures r.projects == st.projects && r.selectedProject == st.selectedProject
    ensures |r.selectedFiles| >= |st.selectedFiles| && r.selectedFiles[..|st.selectedFiles|] == st.selectedFiles
  {
    st.(selectedFiles := st.selectedFiles + PdfOnly(accepted))
  }

  /** A drop adds to the selection exactly the PDF files among those dropped. */
  lemma OnDropAdds(st: PageState, accepted: seq<DroppedFile>)
    ensures forall f :: f in OnDrop(st, accepted).selectedFiles <==>
      f in st.selectedFiles || (f in accepted && f.mimeType == PDF_TYPE)
  {
    PdfOnlyExactly(accepted);
  }

  /** Two drops select what one drop of both batches selects. */
  lemma OnDropTwice(st: PageState, a: seq<DroppedFile>, b: seq<DroppedFile>)
    ensures OnDrop(OnDrop(st, a), b) == OnDrop(st, a + b)
  {
    PdfOnlyAppend(a, b);
  }

  /**
   * Deleting the chip at `index`: the selection without that position; an
   * index past the end removes nothing.
   */
  function RemoveChip(files: seq<DroppedFile>, index: nat): (r: seq<DroppedFile>)
    ensures index < |files| ==> |r| == |files| - 1
    ensures index < |files| ==> forall k :: 0 <= k < index ==> r[k] == files[k]
    ensures index < |files| ==> forall k :: index <= k < |r| ==> r[k] == files[k + 1]
    ensures index >= |files| ==> r == files
  {
    if index < |files| then files[..index] + files[index + 1..] else files
  }

  /** Removing a chip takes away one occurrence of its file and nothing else. */
  lemma RemoveChipMultiset(files: seq<DroppedFile>, index: nat)
    requires index < |files|
    ensures multiset(RemoveChip(files, index)) == multiset(files) - multiset{files[index]}
  {
    assert files == files[..index] + [files[index]] + files[index + 1..];
  }

  // ---------------------------------------------------------------- create

  const DRAFT := "draft"
  const PROCESSING := "processing"
  const COMPLETED := "completed"

  /** The draft created at clock reading `now`, named and described from the form. */
  function Draft(st: PageState, now: nat): Project
  {
    Project(NatToString(now), st.newName, Some(st.newDescription), [], now, DRAFT)
  }

  /**
   * `handleCreateProject` at clock reading `now`: a name that is blank once
   * trimmed does nothing; otherwise a draft with no files goes first, its id
   * the clock reading and its name as typed, and the dialog closes with its
   * fields cleared.
   */
  function CreateProject(st: PageState, now: nat): (r: PageState)
    ensures IsBlank(st.newName) ==> r == st
    ensures !IsBlank(st.newName) ==>
      r.newName == "" && r.newDescription == "" && !r.dialogOpen
      && r.selectedFiles == st.selectedFiles && r.menuOpen == st.menuOpen && r.selectedProject == st.selectedProject
  {
    if IsBlank(st.newName) then st
    else st.(projects := [Draft(st, now)] + st.projects, newName := "", newDescription := "", dialogOpen := false)
  }

  /** A created project is a draft without files, named as typed, placed before every earlier one. */
  lemma CreateProjectPrepends(st: PageState, now: nat)
    requires !IsBlank(st.newName)
    ensures |CreateProject(st, now).projects| == |st.projects| + 1
    ensures CreateProject(st, now).projects[0].status == DRAFT && CreateProject(st, now).projects[0].files == []
    ensures CreateProject(st, now).projects[0].name == st.newName
    ensures CreateProject(st, now).projects[1..] == st.projects
    ensures CreateProject(st, now).selectedFiles == st.selectedFiles
  {
    assert ([Draft(st, now)] + st.projects)[1..] == st.projects;
  }

  /** Pressing create again on the cleared form does nothing. */
  lemma CreateProjectOnce(st: PageState, now: nat, later: nat)
    ensures CreateProject(CreateProject(st, now), later) == CreateProject(st, now)
  {
  }

  // ---------------------------------------------------------------- menu and delete

  /** `handleMenuClick`: the menu opens for this project. */
  function MenuClick(st: PageState, projectId: string): (r: PageState)
    ensures r.menuOpen && r.selectedProject == Some(projectId) && r.projects == st.projects
  {
    st.(menuOpen := true, selectedProject := Some(projectId))
  }

  /** `handleMenuClose`: the menu closes and forgets its project. */
  function MenuClose(st: PageState): (r: PageState)
    ensures !r.menuOpen && r.selectedProject.None? && r.projects == st.projects
  {
    st.(menuOpen := false, selectedProject := None)
  }

  /** The projects whose id is not `id`, in order. */
  function WithoutId(ps: seq<Project>, id: string): seq<Project>
    decreases |ps|
  {
    if ps == [] then []
    else WithoutId(ps[..|ps| - 1], id) + (if ps[|ps| - 1].id != id then [ps[|ps| - 1]] else [])
  }

  /** The filter keeps exactly the projects with another id. */
  lemma {:induction false} WithoutIdExactly(ps: seq<Project>, id: string)
    ensures forall p :: p in WithoutId(ps, id) <==> p in ps && p.id != id
    ensures |WithoutId(ps, id)| <= |ps|
    decreases |ps|
  {
    if ps != [] {
      var init := ps[..|ps| - 1];
      WithoutIdExactly(init, id);
      assert ps == init + [ps[|ps| - 1]];
    }
  }

  /** With no project of that id, nothing is removed. */
  lemma {:induction false} WithoutIdAbsent(ps: seq<Project>, id: string)
    requires forall k :: 0 <= k < |ps| ==> ps[k].id != id
    ensures WithoutId(ps, id) == ps
    decreases |ps|
  {
    if ps != [] {
      var init := ps[..|ps| - 1];
      WithoutIdAbsent(init, id);
      assert ps == init + [ps[|ps| - 1]];
    }
  }

  /**
   * `handleDeleteProject`: the projects with the menu's id go (none when no
   * project, or the empty id, was selected), and the menu closes.
   */
  function DeleteProject(st: PageState): (r: PageState)
    ensures !r.menuOpen && r.selectedProject.None?
    ensures st.selectedProject.None? || st.selectedProject == Some("") ==> r.projects == st.projects
  {
    var projects := if st.selectedProject.Some? && st.selectedProject.value != "" then WithoutId(st.projects, st.selectedProject.value) else st.projects;
    MenuClose(st.(projects := projects))
  }

  /** After deleting, exactly the projects with another id remain. */
  lemma DeleteProjectExactly(st: PageState, id: string)
    requires st.selectedProject == Some(id) && id != ""
    ensures forall p :: p in DeleteProject(st).projects <==> p in st.projects && p.id != id
  {
    WithoutIdExactly(st.projects, id);
  }

  /** Opening the menu on a project and deleting removes that project alone. */
  lemma MenuThenDelete(st: PageState, id: string)
    requires id != ""
    ensures DeleteProject(MenuClick(st, id)).projects == WithoutId(st.projects, id)
  {
  }

  // ---------------------------------------------------------------- status

  /** `getStatusColor`; a status other than the three known ones gets the default colour. */
  function StatusColor(status: string): string
  {
    if status == COMPLETED then "success"
    else if status == PROCESSING then "warning"
    else "default"
  }

  /** `getStatusText`; a status other than the three known ones is unknown. */
  function StatusText(status: string): string
  {
    if status == COMPLETED then "Concluído"
    else if status == PROCESSING then "Processando"
    else if status == DRAFT then "Rascunho"
    else "Desconhecido"
  }

  /** The three known statuses have their own texts, and every other status reads as unknown. */
  lemma StatusTextsDistinct(a: string, b: string)
    requires a in {DRAFT, PROCESSING, COMPLETED} && b in {DRAFT, PROCESSING, COMPLETED} && a != b
    ensures StatusText(a) != StatusText(b) && StatusText(a) != "Desconhecido"
  {
  }

  /** A draft and an unknown status look alike; only completed and processing projects are coloured. */
  lemma StatusColorDefault(status: string)
    ensures StatusColor(status) == "default" <==> status != COMPLETED && status != PROCESSING
  {
  }
}
