// The backend's project endpoints over three tables (projects, files and
// operations) kept in insertion order, plus the upload directory's list of
// written files. Every project endpoint acts only on a project that exists
// and belongs to the current user; otherwise it answers 404 and changes
// nothing.

module PdfRouter {
  import opened Wrappers
  import opened Text
  import Pdf
  import PdfService
  import Schemas

  const MAX_FILE_SIZE: nat := 50 * 1024 * 1024
  const MAX_FILES_PER_UPLOAD: nat := 20

  const PROJECT_NOT_FOUND := "Projeto não encontrado"
  const NO_FILES := "Nenhum arquivo PDF encontrado no projeto"
  const OUTPUT_NOT_FOUND := "Arquivo de saída não encontrado"
  const OUTPUT_MISSING := "Arquivo não existe no sistema"
  const ORDER_UPDATED := "Ordem dos arquivos atualizada"
  const MERGED := "PDFs mesclados com sucesso"

  /**
   * An error text: a literal, the text of a service failure, or the text of
   * an HTTP exception, which puts its status code and ": " before its detail.
   */
  datatype ErrorText = Plain(text: string) | CauseText(cause: PdfService.Failure) | StatusPrefixed(code: nat, inner: ErrorText)

  datatype HttpError = HttpError(code: nat, detail: ErrorText)

  datatype Project = Project(
    id: nat, name: string, description: Option<string>, ownerId: nat, isPublic: bool,
    status: string, outputFilename: Option<string>, outputPath: Option<string>)

  datatype FileRow = FileRow(
    id: nat, projectId: nat, originalFilename: string, storedFilename: string, filePath: string,
    fileSize: nat, pageCount: nat, orderIndex: int)

  datatype Operation = Operation(
    id: nat, userId: nat, projectId: nat, operationType: string, status: string,
    outputFilename: string, outputFiles: seq<string>, errorMessage: Option<ErrorText>)

  /** One uploaded part: its name, its bytes, the fresh identifier it is stored under and the page count its metadata reports. */
  datatype Upload = Upload(filename: string, content: seq<bv8>, fileId: string, pageCount: nat)

  datatype MergeResponse = MergeResponse(message: string, outputPath: string, totalPages: nat, operationId: nat)

  datatype Download = Download(path: string, filename: Option<string>, mediaType: string)

  // ---------------------------------------------------------------- queries

  /** `query(PDFProject).filter(id == projectId, owner_id == userId).first()`, as an index. */
  function FindProject(projects: seq<Project>, projectId: int, userId: nat): (r: Option<nat>)
    ensures r.Some? ==> r.value < |projects| && projects[r.value].id == projectId && projects[r.value].ownerId == userId
    ensures r.Some? ==> forall j :: 0 <= j < r.value ==> !(projects[j].id == projectId && projects[j].ownerId == userId)
    ensures r.None? <==> forall j :: 0 <= j < |projects| ==> !(projects[j].id == projectId && projects[j].ownerId == userId)
  {
    if projects == [] then None
    else if projects[0].id == projectId && projects[0].ownerId == userId then Some(0)
    else
      match FindProject(projects[1..], projectId, userId)
      case None =>
        assert forall j :: 1 <= j < |projects| ==> projects[j] == projects[1..][j - 1];
        None
      case Some(k) =>
        assert forall j :: 1 <= j < k + 1 ==> projects[j] == projects[1..][j - 1];
        Some(k + 1)
  }

  /** `get_project`. */
  function GetProject(projects: seq<Project>, projectId: int, userId: nat): (r: Result<Project, HttpError>)
    ensures r.Success? ==> r.value in projects && r.value.id == projectId && r.value.ownerId == userId
    ensures r.Failure? <==> forall p :: p in projects ==> !(p.id == projectId && p.ownerId == userId)
    ensures r.Failure? ==> r.error == HttpError(404, Plain(PROJECT_NOT_FOUND))
  {
    match FindProject(projects, projectId, userId)
    case Some(i) => Success(projects[i])
    case None => Failure(HttpError(404, Plain(PROJECT_NOT_FOUND)))
  }

  /** The projects a user owns, in table order. */
  function OwnedBy(projects: seq<Project>, userId: nat): (r: seq<Project>)
    ensures forall p :: p in r <==> p in projects && p.ownerId == userId
    ensures |r| <= |projects|
  {
    if projects == [] then []
    else
      var rest := OwnedBy(projects[..|projects| - 1], userId);
      var p := projects[|projects| - 1];
      assert forall q :: q in projects <==> q in projects[..|projects| - 1] || q == p;
      if p.ownerId == userId then rest + [p] else rest
  }

  /** `.offset(skip).limit(limit)`. */
  function Window<T>(s: seq<T>, skip: nat, limit: nat): (r: seq<T>)
    ensures |r| == if skip >= |s| then 0 else if limit < |s| - skip then limit else |s| - skip
    ensures forall k :: 0 <= k < |r| ==> r[k] == s[skip + k]
  {
    if skip >= |s| then [] else if limit < |s| - skip then s[skip..skip + limit] else s[skip..]
  }

  /** Two consecutive pages together are the page of their combined size. */
  lemma WindowsTile<T>(s: seq<T>, skip: nat, a: nat, b: nat)
    ensures Window(s, skip, a) + Window(s, skip + a, b) == Window(s, skip, a + b)
  {
    var w1, w2, w := Window(s, skip, a), Window(s, skip + a, b), Window(s, skip, a + b);
    assert |w1 + w2| == |w|;
    forall k | 0 <= k < |w| ensures (w1 + w2)[k] == w[k] {
      if k >= |w1| {
        assert (w1 + w2)[k] == w2[k - |w1|] == s[skip + a + (k - |w1|)];
      }
    }
  }

  /** `list_projects`: only the user's own projects, the offset skipped and at most `limit` of them. */
  function ListProjects(projects: seq<Project>, userId: nat, skip: nat, limit: nat): (r: seq<Project>)
    ensures forall p :: p in r ==> p in projects && p.ownerId == userId
    ensures |r| <= limit
    ensures var owned := OwnedBy(projects, userId);
      && |r| == (if skip >= |owned| then 0 else if limit < |owned| - skip then limit else |owned| - skip)
      && forall k :: 0 <= k < |r| ==> r[k] == owned[skip + k]
    ensures skip == 0 && limit >= |projects| ==> forall p :: p in projects && p.ownerId == userId ==> p in r
  {
    var owned := OwnedBy(projects, userId);
    var r := Window(owned, skip, limit);
    assert forall p :: p in r ==> p in owned by {
      forall p | p in r ensures p in owned {
        var k :| 0 <= k < |r| && r[k] == p;
        assert owned[skip + k] == p;
      }
    }
    assert skip == 0 && limit >= |projects| ==> r == owned by {
      assert owned[0..] == owned;
    }
    r
  }

  /** The operations a user started, in table order. */
  function OperationsOf(operations: seq<Operation>, userId: nat): (r: seq<Operation>)
    ensures forall o :: o in r <==> o in operations && o.userId == userId
    ensures |r| <= |operations|
  {
    if operations == [] then []
    else
      var rest := OperationsOf(operations[..|operations| - 1], userId);
      var o := operations[|operations| - 1];
      assert forall q :: q in operations <==> q in operations[..|operations| - 1] || q == o;
      if o.userId == userId then rest + [o] else rest
  }

  /** Paging through the projects page by page lists each owned project once, in order. */
  lemma ProjectPagesTile(projects: seq<Project>, userId: nat, skip: nat, a: nat, b: nat)
    ensures ListProjects(projects, userId, skip, a) + ListProjects(projects, userId, skip + a, b)
         == ListProjects(projects, userId, skip, a + b)
  {
    WindowsTile(OwnedBy(projects, userId), skip, a, b);
  }

  /** `list_operations`: only the user's own operations, paged like the projects. */
  function ListOperations(operations: seq<Operation>, userId: nat, skip: nat, limit: nat): (r: seq<Operation>)
    ensures forall o :: o in r ==> o in operations && o.userId == userId
    ensures |r| <= limit
    ensures var mine := OperationsOf(operations, userId);
      && |r| == (if skip >= |mine| then 0 else if limit < |mine| - skip then limit else |mine| - skip)
      && forall k :: 0 <= k < |r| ==> r[k] == mine[skip + k]
    ensures skip == 0 && limit >= |operations| ==> forall o :: o in operations && o.userId == userId ==> o in r
  {
    var mine := OperationsOf(operations, userId);
    var r := Window(mine, skip, limit);
    assert forall o :: o in r ==> o in mine by {
      forall o | o in r ensures o in mine {
        var k :| 0 <= k < |r| && r[k] == o;
        assert mine[skip + k] == o;
      }
    }
    assert skip == 0 && limit >= |operations| ==> r == mine by {
      assert mine[0..] == mine;
    }
    r
  }

  /** Paging through the operations page by page lists each of the user's operations once, in order. */
  lemma OperationPagesTile(operations: seq<Operation>, userId: nat, skip: nat, a: nat, b: nat)
    ensures ListOperations(operations, userId, skip, a) + ListOperations(operations, userId, skip + a, b)
         == ListOperations(operations, userId, skip, a + b)
  {
    WindowsTile(OperationsOf(operations, userId), skip, a, b);
  }

  /**
   * `download_project_output`: 404 when the project is not the user's or has
   * no output path, 404 again when that path is not among the files that
   * exist, otherwise the file under the project's output name.
   */
  function DownloadProjectOutput(projects: seq<Project>, projectId: int, userId: nat, existing: set<string>): (r: Result<Download, HttpError>)
    ensures r.Success? <==>
      && FindProject(projects, projectId, userId).Some?
      && var p := projects[FindProject(projects, projectId, userId).value];
         p.outputPath.Some? && p.outputPath.value != "" && p.outputPath.value in existing
    ensures r.Success? ==> r.value.mediaType == "application/pdf" && r.value.path in existing
    ensures r.Failure? ==> r.error.code == 404
  {
    match FindProject(projects, projectId, userId)
    case None => Failure(HttpError(404, Plain(OUTPUT_NOT_FOUND)))
    case Some(i) =>
      var p := projects[i];
      if p.outputPath.None? || p.outputPath.value == "" then Failure(HttpError(404, Plain(OUTPUT_NOT_FOUND)))
      else if p.outputPath.value !in existing then Failure(HttpError(404, Plain(OUTPUT_MISSING)))
      else Success(Download(p.outputPath.value, p.outputFilename, "application/pdf"))
  }

  /**
   * The outcome of merging the files of project i: the merge succeeds
   * exactly when every file can be read and the output written. Success
   * completes the project, which now names its output, and appends a
   * completed merge operation; a failure leaves the projects alone and
   * appends a merge operation in state "error" whose message is the text of
   * the 500 raised for the merge's error, which is also the response.
   */
  ghost predicate MergeRecorded(projects: seq<Project>, operations: seq<Operation>, opId: nat, i: nat, userId: nat,
                                rows: seq<PdfService.StoredFile>, name: string, fs: Pdf.FileSystem, outputDir: string, writable: bool,
                                result: Result<MergeResponse, HttpError>, projects': seq<Project>, operations': seq<Operation>)
    requires i < |projects|
  {
    var order := PdfService.PathsOf(PdfService.SortByOrder(rows));
    var pid := projects[i].id;
    && (result.Success? <==> Pdf.AllReadable(fs, order) && writable)
    && (result.Success? ==>
          var path := PdfService.MergeOutputPath(outputDir, name);
          && result.value == MergeResponse(MERGED, path, |Pdf.Concat(fs, order)|, opId)
          && projects' == projects[i := projects[i].(status := "completed", outputFilename := Some(name), outputPath := Some(path))]
          && operations' == operations + [Operation(opId, userId, pid, "merge", "completed", name, [path], None)])
    && (result.Failure? ==>
          && result.error == HttpError(500, StatusPrefixed(500, CauseText(
               if !Pdf.AllReadable(fs, order) then PdfService.CannotRead(order[Pdf.FirstUnreadable(fs, order).value])
               else PdfService.CannotWrite(PdfService.MergeOutputPath(outputDir, name)))))
          && projects' == projects
          && operations' == operations + [Operation(opId, userId, pid, "merge", "error", name, [], Some(result.error.detail))])
  }

  // ---------------------------------------------------------------- upload

  /** The extension check compares the lower-cased name; the size check counts bytes. */
  predicate ValidUpload(u: Upload)
  {
    HasPdfExtension(u.filename) && |u.content| <= MAX_FILE_SIZE
  }

  /** `filename.lower().endswith('.pdf')`, read off the last four characters. */
  predicate HasPdfExtension(name: string)
  {
    var n := |name|;
    && n >= 4 && name[n - 4] == '.'
    && (name[n - 3] == 'p' || name[n - 3] == 'P')
    && (name[n - 2] == 'd' || name[n - 2] == 'D')
    && (name[n - 1] == 'f' || name[n - 1] == 'F')
  }

  lemma HasPdfExtensionLower(name: string)
    ensures HasPdfExtension(name) <==> EndsWith(Lower(name), ".pdf")
  {
    var l := Lower(name);
    if |name| >= 4 {
      var n := |name|;
      assert l[n - 4..] == [l[n - 4], l[n - 3], l[n - 2], l[n - 1]];
    }
  }

  /** The 400 detail of a part that fails a check, the extension being checked first. */
  function InvalidDetail(u: Upload): string
  {
    if !HasPdfExtension(u.filename) then "Arquivo " + u.filename + " não é um PDF válido"
    else "Arquivo " + u.filename + " excede o tamanho máximo"
  }

  const TOO_MANY_FILES := "Máximo de " + NatToString(MAX_FILES_PER_UPLOAD) + " arquivos por upload"

  /** Index of the first part that fails a check, or the number of parts. */
  function FirstInvalid(uploads: seq<Upload>): (r: nat)
    ensures r <= |uploads|
  {
    if uploads == [] || !ValidUpload(uploads[0]) then 0 else FirstInvalid(uploads[1..]) + 1
  }

  /** Every part before the index passes the checks, and the part at it fails one. */
  lemma {:induction false} FirstInvalidSpec(uploads: seq<Upload>)
    ensures var r := FirstInvalid(uploads);
      && (forall j :: 0 <= j < r ==> ValidUpload(uploads[j]))
      && (r < |uploads| ==> !ValidUpload(uploads[r]))
  {
    if uploads != [] && ValidUpload(uploads[0]) {
      FirstInvalidSpec(uploads[1..]);
      assert forall j :: 1 <= j < FirstInvalid(uploads) ==> uploads[j] == uploads[1..][j - 1];
    }
  }

  lemma FirstInvalidStep(uploads: seq<Upload>, k: nat)
    requires k < |uploads| && k <= FirstInvalid(uploads)
    ensures ValidUpload(uploads[k]) ==> k + 1 <= FirstInvalid(uploads)
    ensures !ValidUpload(uploads[k]) ==> k == FirstInvalid(uploads)
  {
    FirstInvalidSpec(uploads);
  }

  /** The name `save_uploaded_file` stores a part under: its fresh identifier and the original suffix. */
  function StoredName(u: Upload): string
  {
    u.fileId + PdfService.Suffix(u.filename)
  }

  function StoredPath(uploadDir: string, u: Upload): string
  {
    PdfService.JoinPath(uploadDir, StoredName(u))
  }

  /** The record of part j: stored as `save_uploaded_file` names it, and numbered j within the upload. */
  function NewRow(projectId: nat, uploadDir: string, u: Upload, id: nat, orderIndex: nat): FileRow
  {
    FileRow(id, projectId, u.filename, StoredName(u), StoredPath(uploadDir, u), |u.content|, u.pageCount, orderIndex)
  }

  /** The records of the first n parts, with identifiers from `firstId` on. */
  function NewRows(projectId: nat, uploadDir: string, uploads: seq<Upload>, firstId: nat, n: nat): (r: seq<FileRow>)
    requires n <= |uploads|
    ensures |r| == n
  {
    if n == 0 then []
    else NewRows(projectId, uploadDir, uploads, firstId, n - 1) + [NewRow(projectId, uploadDir, uploads[n - 1], firstId + n - 1, n - 1)]
  }

  /** Record j is part j's, numbered j within the upload and given identifier `firstId + j`. */
  lemma {:induction false} NewRowsAt(projectId: nat, uploadDir: string, uploads: seq<Upload>, firstId: nat, n: nat, j: nat)
    requires j < n <= |uploads|
    ensures NewRows(projectId, uploadDir, uploads, firstId, n)[j] == NewRow(projectId, uploadDir, uploads[j], firstId + j, j)
  {
    if j < n - 1 {
      NewRowsAt(projectId, uploadDir, uploads, firstId, n - 1, j);
    }
  }

  /** The paths the first n parts are written to. */
  function SavedPaths(uploadDir: string, uploads: seq<Upload>, n: nat): (r: seq<string>)
    requires n <= |uploads|
    ensures |r| == n
  {
    if n == 0 then [] else SavedPaths(uploadDir, uploads, n - 1) + [StoredPath(uploadDir, uploads[n - 1])]
  }

  /** Path j is where part j is written, under the name `save_uploaded_file` gives it. */
  lemma {:induction false} SavedPathsAt(uploadDir: string, uploads: seq<Upload>, n: nat, j: nat)
    requires j < n <= |uploads|
    ensures SavedPaths(uploadDir, uploads, n)[j] == StoredPath(uploadDir, uploads[j])
  {
    if j < n - 1 {
      SavedPathsAt(uploadDir, uploads, n - 1, j);
    }
  }

  /** The order indices an upload gives are 0 .. n - 1 in the order of the parts, whatever the project already holds. */
  lemma UploadOrderIndices(projectId: nat, uploadDir: string, uploads: seq<Upload>, firstId: nat)
    ensures var r := NewRows(projectId, uploadDir, uploads, firstId, |uploads|);
      && (forall j :: 0 <= j < |r| ==> r[j].orderIndex == j && r[j].projectId == projectId && r[j].id == firstId + j)
      && (forall i, j :: 0 <= i < j < |r| ==> r[i].id < r[j].id)
  {
    forall j | 0 <= j < |uploads| {
      NewRowsAt(projectId, uploadDir, uploads, firstId, |uploads|, j);
    }
  }

  const INTERNAL_ERROR := "Internal Server Error"

  /**
   * The outcome of the upload loop and the paths it writes, with k the first
   * part that fails a check: a failed write of the first part that passes
   * them gives 500 and writes nothing; otherwise the failing part gives 400
   * after the parts before it were written, and with no failing part every
   * part is written and recorded.
   */
  function SaveOutcome(projectId: nat, uploadDir: string, uploads: seq<Upload>, writable: bool, firstId: nat)
    : (Result<seq<FileRow>, HttpError>, seq<string>)
  {
    var k := FirstInvalid(uploads);
    if !writable && k > 0 then (Failure(HttpError(500, Plain(INTERNAL_ERROR))), [])
    else if k < |uploads| then (Failure(HttpError(400, Plain(InvalidDetail(uploads[k])))), SavedPaths(uploadDir, uploads, k))
    else (Success(NewRows(projectId, uploadDir, uploads, firstId, |uploads|)), SavedPaths(uploadDir, uploads, |uploads|))
  }

  /** An upload succeeds only when every part passes the checks, and then commits the records of all of them. */
  lemma SaveOutcomeRows(projectId: nat, uploadDir: string, uploads: seq<Upload>, writable: bool, firstId: nat)
    ensures var r := SaveOutcome(projectId, uploadDir, uploads, writable, firstId).0;
      r.Success? ==> FirstInvalid(uploads) == |uploads| && r.value == NewRows(projectId, uploadDir, uploads, firstId, |uploads|)
  {
  }

  lemma SaveOutcomeInvalid(projectId: nat, uploadDir: string, uploads: seq<Upload>, writable: bool, firstId: nat, k: nat)
    requires k < |uploads| && k == FirstInvalid(uploads) && (writable || k == 0)
    ensures SaveOutcome(projectId, uploadDir, uploads, writable, firstId)
      == (Failure(HttpError(400, Plain(InvalidDetail(uploads[k])))), SavedPaths(uploadDir, uploads, k))
  {
  }

  lemma SaveOutcomeUnwritable(projectId: nat, uploadDir: string, uploads: seq<Upload>, firstId: nat)
    requires uploads != [] && ValidUpload(uploads[0])
    ensures SaveOutcome(projectId, uploadDir, uploads, false, firstId) == (Failure(HttpError(500, Plain(INTERNAL_ERROR))), [])
  {
  }

  lemma SaveOutcomeAll(projectId: nat, uploadDir: string, uploads: seq<Upload>, writable: bool, firstId: nat)
    requires FirstInvalid(uploads) == |uploads| && (writable || uploads == [])
    ensures SaveOutcome(projectId, uploadDir, uploads, writable, firstId)
      == (Success(NewRows(projectId, uploadDir, uploads, firstId, |uploads|)), SavedPaths(uploadDir, uploads, |uploads|))
  {
  }

  // ---------------------------------------------------------------- reorder

  /** The order index the last of the first n entries naming `fileId` asks for, if any. */
  function LastOrder(orders: seq<(int, int)>, n: nat, fileId: int): (r: Option<int>)
    requires n <= |orders|
    ensures r.None? <==> forall k :: 0 <= k < n ==> orders[k].0 != fileId
    ensures r.Some? ==> exists k :: 0 <= k < n && orders[k] == (fileId, r.value) && forall k' :: k < k' < n ==> orders[k'].0 != fileId
  {
    if n == 0 then None
    else if orders[n - 1].0 == fileId then Some(orders[n - 1].1)
    else LastOrder(orders, n - 1, fileId)
  }

  /** One `update({"order_index": i})` on the rows with that id in this project. */
  function SetOrder(rows: seq<FileRow>, projectId: nat, fileId: int, orderIndex: int): (r: seq<FileRow>)
    ensures |r| == |rows|
    ensures forall i :: 0 <= i < |rows| ==>
      r[i] == if rows[i].id == fileId && rows[i].projectId == projectId then rows[i].(orderIndex := orderIndex) else rows[i]
  {
    if rows == [] then []
    else
      var n := |rows| - 1;
      var row := rows[n];
      SetOrder(rows[..n], projectId, fileId, orderIndex)
        + [if row.id == fileId && row.projectId == projectId then row.(orderIndex := orderIndex) else row]
  }

  /** The updates of `reorder_files` for the first n entries, in order. */
  function Reordered(rows: seq<FileRow>, projectId: nat, orders: seq<(int, int)>, n: nat): (r: seq<FileRow>)
    requires n <= |orders|
    ensures |r| == |rows|
  {
    if n == 0 then rows
    else SetOrder(Reordered(rows, projectId, orders, n - 1), projectId, orders[n - 1].0, orders[n - 1].1)
  }

  /**
   * After the first n entries, a row of this project that they name carries
   * the index of the last entry naming it; every other row is unchanged.
   */
  lemma {:induction false} ReorderedEffect(rows: seq<FileRow>, projectId: nat, orders: seq<(int, int)>, n: nat, i: nat)
    requires n <= |orders| && i < |rows|
    ensures var last := LastOrder(orders, n, rows[i].id);
      Reordered(rows, projectId, orders, n)[i] ==
        if rows[i].projectId == projectId && last.Some? then rows[i].(orderIndex := last.value) else rows[i]
  {
    if n > 0 {
      ReorderedEffect(rows, projectId, orders, n - 1, i);
    }
  }

  // ---------------------------------------------------------------- tables

  class Database {
    var projects: seq<Project>
    var files: seq<FileRow>
    var operations: seq<Operation>
    /** Paths written to the upload directory, whether or not a record was committed for them. */
    var stored: seq<string>
    var nextProjectId: nat
    var nextFileId: nat
    var nextOperationId: nat

    /** Identifiers are allocated from counters, so every row's is below its table's counter. */
    ghost predicate Valid()
      reads this
    {
      && (forall i :: 0 <= i < |projects| ==> projects[i].id < nextProjectId)
      && (forall i :: 0 <= i < |files| ==> files[i].id < nextFileId)
      && (forall i :: 0 <= i < |operations| ==> operations[i].id < nextOperationId)
    }

    constructor()
      ensures Valid() && projects == [] && files == [] && operations == [] && stored == []
    {
      projects := [];
      files := [];
      operations := [];
      stored := [];
      nextProjectId := 0;
      nextFileId := 0;
      nextOperationId := 0;
    }

    /** `create_project`: a new draft project owned by the current user. */
    method CreateProject(userId: nat, name: string, description: Option<string>, isPublic: bool) returns (project: Project)
      requires Valid()
      modifies this
      ensures Valid()
      ensures project == Project(old(nextProjectId), name, description, userId, isPublic, "draft", None, None)
      ensures projects == old(projects) + [project]
      ensures files == old(files) && operations == old(operations) && stored == old(stored)
      ensures forall p :: p in old(projects) ==> p.id != project.id
    {
      project := Project(nextProjectId, name, description, userId, isPublic, "draft", None, None);
      projects := projects + [project];
      nextProjectId := nextProjectId + 1;
    }

    /**
     * `upload_files`: after the ownership and count checks, each part in turn
     * is checked and written to the upload directory; the records, numbered
     * 0 .. n - 1, are committed only once every part has passed. A part that
     * fails a check ends the request with 400 and no record, though the
     * parts before it stay written; a failed write ends it with 500.
     */
    method UploadFiles(projectId: int, userId: nat, uploads: seq<Upload>, uploadDir: string, writable: bool)
      returns (result: Result<seq<FileRow>, HttpError>)
      requires Valid()
      modifies this
      ensures Valid()
      ensures projects == old(projects) && operations == old(operations)
      ensures FindProject(projects, projectId, userId).None? ==>
        result == Failure(HttpError(404, Plain(PROJECT_NOT_FOUND))) && unchanged(this)
      ensures FindProject(projects, projectId, userId).Some? && |uploads| > MAX_FILES_PER_UPLOAD ==>
        result == Failure(HttpError(400, Plain(TOO_MANY_FILES))) && unchanged(this)
      ensures FindProject(projects, projectId, userId).Some? && |uploads| <= MAX_FILES_PER_UPLOAD ==>
        && var (r, w) := SaveOutcome(projectId as nat, uploadDir, uploads, writable, old(nextFileId));
        && result == r && stored == old(stored) + w
        && files == old(files) + (if result.Success? then result.value else [])
    {
      var found := FindProject(projects, projectId, userId);
      if found.None? {
        return Failure(HttpError(404, Plain(PROJECT_NOT_FOUND)));
      }
      if |uploads| > MAX_FILES_PER_UPLOAD {
        return Failure(HttpError(400, Plain(TOO_MANY_FILES)));
      }
      result, stored := SaveParts(projects[found.value].id, uploads, uploadDir, writable, nextFileId, stored);
      if result.Success? {
        SaveOutcomeRows(projects[found.value].id, uploadDir, uploads, writable, nextFileId);
        UploadOrderIndices(projects[found.value].id, uploadDir, uploads, nextFileId);
        CommitRows(result.value);
      }
    }

    /** Commits records whose identifiers are the next ones the counter hands out. */
    method CommitRows(rows: seq<FileRow>)
      requires Valid() && forall j :: 0 <= j < |rows| ==> rows[j].id == nextFileId + j
      modifies this`files, this`nextFileId
      ensures Valid()
      ensures files == old(files) + rows && nextFileId == old(nextFileId) + |rows|
    {
      files := files + rows;
      nextFileId := nextFileId + |rows|;
    }

    /**
     * `reorder_files`: each entry sets the order index of the file with that
     * id if it belongs to this project; other rows are untouched.
     */
    method ReorderFiles(projectId: int, userId: nat, orders: seq<(int, int)>) returns (result: Result<string, HttpError>)
      requires Valid()
      modifies this
      ensures Valid()
      ensures projects == old(projects) && operations == old(operations) && stored == old(stored)
      ensures FindProject(projects, projectId, userId).None? ==>
        result == Failure(HttpError(404, Plain(PROJECT_NOT_FOUND))) && files == old(files)
      ensures FindProject(projects, projectId, userId).Some? ==>
        result == Success(ORDER_UPDATED) && files == Reordered(old(files), projectId as nat, orders, |orders|)
    {
      var found := FindProject(projects, projectId, userId);
      if found.None? {
        return Failure(HttpError(404, Plain(PROJECT_NOT_FOUND)));
      }
      ApplyOrders(projects[found.value].id, orders);
      return Success(ORDER_UPDATED);
    }

    /** The loop of `reorder_files`: one update per entry; identifiers never change. */
    method ApplyOrders(projectId: nat, orders: seq<(int, int)>)
      requires Valid()
      modifies this`files
      ensures Valid()
      ensures files == Reordered(old(files), projectId, orders, |orders|)
    {
      for k := 0 to |orders|
        invariant files == Reordered(old(files), projectId, orders, k)
        invariant |files| == |old(files)|
        invariant forall i :: 0 <= i < |files| ==> files[i].id == old(files)[i].id
      {
        files := SetOrder(files, projectId, orders[k].0, orders[k].1);
      }
    }

    /** A new operation row, "processing" until its outcome is known. */
    method StartOperation(userId: nat, projectId: nat, operationType: string, outputFilename: string) returns (opId: nat)
      requires Valid()
      modifies this`operations, this`nextOperationId
      ensures Valid()
      ensures opId == old(nextOperationId)
      ensures operations == old(operations) + [Operation(opId, userId, projectId, operationType, "processing", outputFilename, [], None)]
    {
      opId := nextOperationId;
      operations := operations + [Operation(opId, userId, projectId, operationType, "processing", outputFilename, [], None)];
      nextOperationId := nextOperationId + 1;
    }

    /** Records the outcome of the latest operation. */
    method FinishOperation(status: string, outputFiles: seq<string>, errorMessage: Option<ErrorText>)
      requires Valid() && operations != []
      modifies this`operations
      ensures Valid()
      ensures var last := |old(operations)| - 1;
        operations == old(operations)[last := old(operations)[last].(status := status, outputFiles := outputFiles, errorMessage := errorMessage)]
    {
      var last := |operations| - 1;
      operations := operations[last := operations[last].(status := status, outputFiles := outputFiles, errorMessage := errorMessage)];
    }

    /** Marks project i completed, with the output it now holds. */
    method CompleteProject(i: nat, outputFilename: string, outputPath: string)
      requires Valid() && i < |projects|
      modifies this`projects
      ensures Valid()
      ensures projects == old(projects)[i := old(projects)[i].(status := "completed", outputFilename := Some(outputFilename), outputPath := Some(outputPath))]
    {
      projects := projects[i := projects[i].(status := "completed", outputFilename := Some(outputFilename), outputPath := Some(outputPath))];
    }

    /**
     * `merge_project_pdfs`: after the ownership check and a 400 for a
     * project without files, merges the project's files by order index and
     * records the outcome (see `MergeRows`).
     */
    method MergeProjectPdfs(projectId: int, userId: nat, requestedName: string, fs: Pdf.FileSystem, outputDir: string, writable: bool)
      returns (result: Result<MergeResponse, HttpError>)
      requires Valid()
      modifies this
      ensures Valid()
      ensures files == old(files) && stored == old(stored)
      ensures var found := old(FindProject(projects, projectId, userId));
        && (found.None? ==> result == Failure(HttpError(404, Plain(PROJECT_NOT_FOUND))) && unchanged(this))
        && (found.Some? && ProjectFiles(old(files), projectId) == [] ==>
              result == Failure(HttpError(400, Plain(NO_FILES))) && unchanged(this))
        && (found.Some? && ProjectFiles(old(files), projectId) != [] ==>
              MergeRecorded(old(projects), old(operations), old(nextOperationId), found.value, userId,
                ProjectFiles(old(files), projectId), Schemas.ValidateFilename(requestedName), fs, outputDir, writable,
                result, projects, operations))
    {
      var found := FindProject(projects, projectId, userId);
      if found.None? {
        return Failure(HttpError(404, Plain(PROJECT_NOT_FOUND)));
      }
      var rows := ProjectFiles(files, projectId);
      if rows == [] {
        return Failure(HttpError(400, Plain(NO_FILES)));
      }
      result := MergeRows(found.value, userId, rows, Schemas.ValidateFilename(requestedName), fs, outputDir, writable);
    }

    /**
     * The body of `merge_project_pdfs` once the project and its files are
     * known: records a "processing" merge operation, then merges.
     */
    method MergeRows(i: nat, userId: nat, rows: seq<PdfService.StoredFile>, name: string, fs: Pdf.FileSystem, outputDir: string, writable: bool)
      returns (result: Result<MergeResponse, HttpError>)
      requires Valid() && i < |projects|
      modifies this`projects, this`operations, this`nextOperationId
      ensures Valid()
      ensures MergeRecorded(old(projects), old(operations), old(nextOperationId), i, userId, rows, name, fs, outputDir, writable,
                result, projects, operations)
    {
      var opId := StartOperation(userId, projects[i].id, "merge", name);
      // The query's ORDER BY, taken as a stable sort of the table order;
      // `merge_pdfs` sorts the rows again, which keeps them.
      var ordered := PdfService.SortByOrder(rows);
      PdfService.SortByOrderSorted(rows);
      PdfService.SortByOrderKeepsSorted(ordered);
      var merged := PdfService.MergePdfs(fs, ordered, outputDir, name, writable);
      if merged.Success? {
        var path := merged.value.outputPath;
        CompleteProject(i, name, path);
        FinishOperation("completed", [path], None);
        return Success(MergeResponse(MERGED, path, merged.value.totalPages, opId));
      }
      // The 500 raised for a failed merge is caught by the handler's own
      // `except`, which records and re-raises the text of that exception.
      var raised := HttpError(500, CauseText(merged.error));
      var text := StatusPrefixed(raised.code, raised.detail);
      FinishOperation("error", [], Some(text));
      result := Failure(HttpError(500, text));
    }
  }

  /**
   * The loop of `upload_files`. When the directory cannot be written the
   * outcome is settled by the first part: its check fails (400) or its
   * write does (500); otherwise the parts are saved one by one.
   */
  method SaveParts(projectId: nat, uploads: seq<Upload>, uploadDir: string, writable: bool, firstId: nat, before: seq<string>)
    returns (result: Result<seq<FileRow>, HttpError>, stored: seq<string>)
    ensures var (r, w) := SaveOutcome(projectId, uploadDir, uploads, writable, firstId); result == r && stored == before + w
  {
    if writable {
      result, stored := SaveEach(projectId, uploads, uploadDir, firstId, before);
    } else if uploads == [] {
      SaveOutcomeAll(projectId, uploadDir, uploads, writable, firstId);
      result, stored := Success([]), before;
    } else {
      var saved := SavePart(uploadDir, uploads[0], false);
      stored := before;
      if !ValidUpload(uploads[0]) {
        SaveOutcomeInvalid(projectId, uploadDir, uploads, writable, firstId, 0);
      } else {
        SaveOutcomeUnwritable(projectId, uploadDir, uploads, firstId);
      }
      result := Failure(saved.error);
    }
  }

  /** The loop over the parts when every write succeeds. */
  method SaveEach(projectId: nat, uploads: seq<Upload>, uploadDir: string, firstId: nat, before: seq<string>)
    returns (result: Result<seq<FileRow>, HttpError>, stored: seq<string>)
    ensures var (r, w) := SaveOutcome(projectId, uploadDir, uploads, true, firstId); result == r && stored == before + w
  {
    stored := before;
    var pending: seq<FileRow> := [];
    for k := 0 to |uploads|
      invariant k <= FirstInvalid(uploads)
      invariant pending == NewRows(projectId, uploadDir, uploads, firstId, k)
      invariant stored == before + SavedPaths(uploadDir, uploads, k)
    {
      FirstInvalidStep(uploads, k);
      var saved := SavePart(uploadDir, uploads[k], true);
      if saved.Failure? {
        SaveOutcomeInvalid(projectId, uploadDir, uploads, true, firstId, k);
        return Failure(saved.error), stored;
      }
      stored := stored + [saved.value];
      pending := pending + [NewRow(projectId, uploadDir, uploads[k], firstId + k, k)];
    }
    SaveOutcomeAll(projectId, uploadDir, uploads, true, firstId);
    return Success(pending), stored;
  }

  /** One round of that loop: the name check, the size check, then the write; success gives the path written. */
  method SavePart(uploadDir: string, u: Upload, writable: bool) returns (result: Result<string, HttpError>)
    ensures !ValidUpload(u) ==> result == Failure(HttpError(400, Plain(InvalidDetail(u))))
    ensures ValidUpload(u) && !writable ==> result == Failure(HttpError(500, Plain(INTERNAL_ERROR)))
    ensures ValidUpload(u) && writable ==> result == Success(StoredPath(uploadDir, u))
  {
    if !HasPdfExtension(u.filename) {
      return Failure(HttpError(400, Plain(InvalidDetail(u))));
    }
    if |u.content| > MAX_FILE_SIZE {
      return Failure(HttpError(400, Plain(InvalidDetail(u))));
    }
    var saved := PdfService.SaveUploadedFile(uploadDir, u.fileId, u.content, u.filename, writable);
    if saved.Failure? {
      return Failure(HttpError(500, Plain(INTERNAL_ERROR)));
    }
    return Success(saved.value.filePath);
  }

  /** `query(PDFFile).filter(project_id == projectId)`, as the service's records. */
  function ProjectFiles(rows: seq<FileRow>, projectId: int): (r: seq<PdfService.StoredFile>)
    ensures |r| <= |rows|
    ensures forall f :: f in r <==> exists i :: 0 <= i < |rows| && rows[i].projectId == projectId && f == StoredOf(rows[i])
  {
    if rows == [] then []
    else
      var n := |rows| - 1;
      var rest := ProjectFiles(rows[..n], projectId);
      assert forall i :: 0 <= i < n ==> rows[..n][i] == rows[i];
      if rows[n].projectId == projectId then rest + [StoredOf(rows[n])] else rest
  }

  function StoredOf(row: FileRow): PdfService.StoredFile
  {
    PdfService.StoredFile(row.id, row.filePath, row.orderIndex)
  }
}
