/** The PDF drop zone (`PDFUpload`): it checks the dropped file, stores it
    under a per-user path in the storage bucket and reports the public URL
    or an error to its parent. The signed-in user, the clock and the
    storage service are inputs. */
module PdfUploadUi {
  import opened Wrappers
  import opened Text
  import Decimal

  datatype PdfFile = PdfFile(name: string, mimeType: string, size: nat)

  datatype User = User(id: string)

  datatype UploadState = UploadState(uploading: bool, uploadProgress: int, uploadedFile: Option<PdfFile>)

  /** What the parent hears: nothing, `onError(message)`, or
      `onUploadComplete(url, name)`. */
  datatype Report = Silent | ErrorReport(message: string) | Completed(url: string, name: string)

  /** The storage service's answer for the upload and the public-URL
      lookup together. */
  datatype StorageOutcome = Stored(publicUrl: string) | StorageFailed(message: string)

  /** After the checks: the new state, the report so far, and the storage
      path when an upload is started. */
  datatype Started = Started(state: UploadState, report: Report, path: Option<string>)

  const PdfMimeType := "application/pdf"
  const MaxPdfSize := 10 * 1024 * 1024
  const NotAPdf := "Please upload a PDF file"
  const PdfTooLarge := "File size must be less than 10MB"

  const InitialUpload := UploadState(false, 0, None)

  /** `${user.id}/${Date.now()}-${file.name}`. */
  function StoragePath(userId: string, now: nat, name: string): (p: string)
    ensures StartsWith(p, userId + "/") && EndsWith(p, "-" + name)
    ensures |p| == |userId| + 1 + |Decimal.NatToString(now)| + 1 + |name|
    ensures p[|userId| + 1..|p| - |name| - 1] == Decimal.NatToString(now)
  {
    var p := userId + "/" + Decimal.NatToString(now) + "-" + name;
    assert p[..|userId + "/"|] == userId + "/";
    assert p[|p| - |"-" + name|..] == "-" + name;
    assert p[|userId| + 1..|p| - |name| - 1] == Decimal.NatToString(now);
    p
  }

  /** The upload time can be read back from the path, so the same user
      uploading the same file name at two different times gets two
      different paths. */
  lemma StoragePathKeepsTime(userId: string, now: nat, later: nat, name: string)
    ensures var p := StoragePath(userId, now, name);
            Decimal.ParseDecimal(p[|userId| + 1..|p| - |name| - 1]) == now
    ensures now != later ==> StoragePath(userId, now, name) != StoragePath(userId, later, name)
  {
    Decimal.ParseNatToString(now);
    Decimal.ParseNatToString(later);
  }

  /** The synchronous part of `onDrop`: with no file or no signed-in user
      nothing happens; otherwise the type and size are checked, in that
      order, before the upload starts. */
  function OnDrop(s: UploadState, files: seq<PdfFile>, user: Option<User>, now: nat): (r: Started)
    ensures files == [] || user.None? ==> r == Started(s, Silent, None)
    ensures files != [] && user.Some? && files[0].mimeType != PdfMimeType ==> r == Started(s, ErrorReport(NotAPdf), None)
    ensures files != [] && user.Some? && files[0].mimeType == PdfMimeType && files[0].size > MaxPdfSize ==>
      r == Started(s, ErrorReport(PdfTooLarge), None)
    ensures r.path.Some? <==> files != [] && user.Some? && files[0].mimeType == PdfMimeType && files[0].size <= MaxPdfSize
    ensures r.path.Some? ==>
      && r.state == UploadState(true, 0, Some(files[0]))
      && r.path.value == StoragePath(user.value.id, now, files[0].name)
      && r.report == Silent
  {
    if files == [] || user.None? then Started(s, Silent, None)
    else if files[0].mimeType != PdfMimeType then Started(s, ErrorReport(NotAPdf), None)
    else if files[0].size > MaxPdfSize then Started(s, ErrorReport(PdfTooLarge), None)
    else Started(UploadState(true, 0, Some(files[0])), Silent, Some(StoragePath(user.value.id, now, files[0].name)))
  }

  /** The asynchronous rest of `onDrop`: report the URL or the storage
      error's message, and leave the uploading state in every case. */
  function Finish(s: UploadState, file: PdfFile, o: StorageOutcome): (r: (UploadState, Report))
    ensures !r.0.uploading && r.0.uploadedFile == s.uploadedFile
    ensures o.Stored? <==> r.1.Completed?
    ensures o.Stored? ==> r.0.uploadProgress == 100 && r.1 == Completed(o.publicUrl, file.name)
    ensures o.StorageFailed? ==> r.0.uploadProgress == s.uploadProgress && r.1 == ErrorReport(o.message)
  {
    match o
    case Stored(url) => (s.(uploadProgress := 100, uploading := false), Completed(url, file.name))
    case StorageFailed(m) => (s.(uploading := false), ErrorReport(m))
  }

  /** A whole drop: the checks and, when they pass, the upload. */
  function Drop(s: UploadState, files: seq<PdfFile>, user: Option<User>, now: nat, o: StorageOutcome): (r: (UploadState, Report))
    ensures !s.uploading ==> !r.0.uploading
    ensures r.1.Completed? ==> o.Stored? && r.1.url == o.publicUrl
  {
    var st := OnDrop(s, files, user, now);
    if st.path.Some? then Finish(st.state, files[0], o) else (st.state, st.report)
  }

  /** `removeFile`. */
  function RemoveFile(s: UploadState): (r: UploadState)
    ensures r.uploadedFile.None? && r.uploadProgress == 0 && r.uploading == s.uploading
  {
    s.(uploadedFile := None, uploadProgress := 0)
  }

  /** What the user can do to the zone: drop files (with the signed-in user
      and the time at that moment) or press the remove button. */
  datatype Control = DropFiles(files: seq<PdfFile>, user: Option<User>, now: nat) | PressRemove

  /** One control event as the rendered zone lets it through: the dropzone
      is disabled while uploading, and the remove button is shown only with
      a file and disabled while uploading. */
  function Handle(s: UploadState, c: Control): (r: UploadState)
    ensures s.uploading ==> r == s
    ensures c.PressRemove? && s.uploadedFile.None? ==> r == s
    ensures !s.uploading && c.PressRemove? && s.uploadedFile.Some? ==> r == RemoveFile(s)
    ensures !s.uploading && c.DropFiles? ==> r == OnDrop(s, c.files, c.user, c.now).state
  {
    if s.uploading then s
    else match c
      case DropFiles(files, user, now) => OnDrop(s, files, user, now).state
      case PressRemove => if s.uploadedFile.Some? then RemoveFile(s) else s
  }

  function HandleAll(s: UploadState, cs: seq<Control>): UploadState
    decreases |cs|
  {
    if cs == [] then s else HandleAll(Handle(s, cs[0]), cs[1..])
  }

  /** While an upload is in flight, no sequence of drops or remove presses
      changes anything: the file being uploaded stays the one shown. */
  lemma {:induction false} UploadingFreezesState(s: UploadState, cs: seq<Control>)
    requires s.uploading
    ensures HandleAll(s, cs) == s
    decreases |cs|
  {
    if cs != [] {
      UploadingFreezesState(Handle(s, cs[0]), cs[1..]);
    }
  }

  /** Exactly 10 MiB is still uploaded; one byte more is refused. */
  lemma SizeBoundary(s: UploadState, f: PdfFile, u: User, now: nat)
    requires f.mimeType == PdfMimeType
    ensures f.size == MaxPdfSize ==> OnDrop(s, [f], Some(u), now).path.Some?
    ensures f.size == MaxPdfSize + 1 ==> OnDrop(s, [f], Some(u), now).report == ErrorReport(PdfTooLarge)
  {
  }

  /** A failed upload never reaches `onUploadComplete`; a refused file
      never reaches storage. */
  lemma FailuresReportOnly(s: UploadState, files: seq<PdfFile>, u: User, now: nat, m: string)
    requires files != [] && files[0].mimeType == PdfMimeType && files[0].size <= MaxPdfSize
    ensures Drop(s, files, Some(u), now, StorageFailed(m)).1 == ErrorReport(m)
    ensures !Drop(s, files, Some(u), now, StorageFailed(m)).0.uploading
  {
  }

  /** Two uploads of the same file by the same user at different
      milliseconds go to different paths. */
  lemma PathsDifferByTime(userId: string, m: nat, n: nat, name: string)
    requires m != n
    ensures StoragePath(userId, m, name) != StoragePath(userId, n, name)
  {
    Decimal.NatToStringInjective(m, n);
    var a := Decimal.NatToString(m);
    var b := Decimal.NatToString(n);
    var u := userId + "/";
    if |a| < |b| {
      assert (u + a + "-" + name)[|u| + |a|] == '-' && Decimal.IsDigit(b[|a|]);
    } else if |b| < |a| {
      assert (u + b + "-" + name)[|u| + |b|] == '-' && Decimal.IsDigit(a[|b|]);
    } else {
      assert (u + a + "-" + name)[|u|..|u| + |a|] == a;
      assert (u + b + "-" + name)[|u|..|u| + |b|] == b;
    }
  }

  /** When the user id has no `/`, the path's first segment is the id:
      every user's files sit in that user's own folder. */
  lemma PathFolderIsUser(userId: string, now: nat, name: string)
    requires '/' !in userId
    ensures UpTo(StoragePath(userId, now, name), '/') == userId
  {
    UpToFirst(userId, '/', Decimal.NatToString(now) + "-" + name);
    assert StoragePath(userId, now, name) == userId + ['/'] + (Decimal.NatToString(now) + "-" + name);
  }
}
