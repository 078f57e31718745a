/** The Flask variant (app.py): upload screening, naming of the stored file,
    its download URL and its QR image, the download route, and one pass of
    the background sweep over the uploads and QR folders. */
module App {
  import opened Text
  import opened Folders
  import Uuid

  const Port := "5000"
  const UploadFolder := "uploads"
  const QrFolder := "static/qrcodes"
  const AllowedExtensions: set<string> :=
    {"txt", "pdf", "png", "jpg", "jpeg", "gif", "doc", "docx", "xls", "xlsx", "zip"}
  /** Age in seconds past which the sweep removes a file. */
  const FileExpiry := 3600

  const NoFilePart := "No file part"
  const NoSelectedFile := "No selected file"
  const FileTypeNotAllowed := "File type not allowed"
  const ProcessingErrorPrefix := "An error occurred while processing your file: "

  /** `BASE_URL`, built once from the machine's address and the port: the
      port is what follows its last `:`, whatever the address holds. */
  function BaseUrl(localIp: string): (r: string)
    ensures RSplitOnce(r, ':') == Some(("http://" + localIp, Port))
  {
    assert ':' !in Port;
    RSplitOnceAt("http://" + localIp, ':', Port);
    "http://" + localIp + ":" + Port
  }

  // ---------------------------------------------------------------------
  // allowed_file

  /** A name is accepted when it has a `.` and the text after the LAST `.`,
      lower-cased, is one of the allowed extensions. */
  predicate AllowedFile(filename: string)
  {
    match RSplitOnce(filename, '.')
    case None => false
    case Some((_, extension)) => Lower(extension) in AllowedExtensions
  }

  /** Any name with a dot is some `stem + "." + extension` with a dot-free
      extension, and its acceptance depends on that extension alone. */
  lemma AllowedFileByExtension(stem: string, extension: string)
    requires '.' !in extension
    ensures AllowedFile(stem + "." + extension) <==> Lower(extension) in AllowedExtensions
  {
    RSplitOnceAt(stem, '.', extension);
  }

  /** A name without any `.` is rejected. */
  lemma AllowedFileNeedsDot(filename: string)
    requires '.' !in filename
    ensures !AllowedFile(filename)
  {
  }

  /** Case is ignored: `r.PDF` is accepted. */
  lemma AllowedFileIgnoresCase()
    ensures AllowedFile("r.PDF")
  {
    AllowedFileByExtension("r", "PDF");
    assert "r" + "." + "PDF" == "r.PDF";
    assert Lower("PDF") == "pdf" by {
      assert LowerChar('P') == 'p' && LowerChar('D') == 'd' && LowerChar('F') == 'f';
    }
  }

  /** Only the last extension counts, and an empty one is not allowed:
      `a.tar.gz` and `notes.` are rejected. */
  lemma AllowedFileRejections()
    ensures !AllowedFile("a.tar.gz")
    ensures !AllowedFile("notes.")
  {
    AllowedFileByExtension("a.tar", "gz");
    assert "a.tar" + "." + "gz" == "a.tar.gz";
    assert Lower("gz") == "gz" by {
      assert LowerChar('g') == 'g' && LowerChar('z') == 'z';
    }
    AllowedFileByExtension("notes", "");
    assert "notes" + "." + "" == "notes.";
  }

  // ---------------------------------------------------------------------
  // upload_file: screening

  /** What reaches `upload_file`: a GET, a POST without a `file` part, or a
      POST whose `file` part carries the browser's file name. */
  datatype Request = Get | PostWithoutFile | PostFile(filename: string)

  datatype Verdict = RedirectHome | Reject(message: string) | Accept(filename: string)

  /** The checks of `upload_file`, in the order the handler makes them. */
  function Screen(req: Request): (v: Verdict)
    ensures v == RedirectHome <==> req.Get?
    ensures v == Reject(NoFilePart) <==> req.PostWithoutFile?
    ensures v == Reject(NoSelectedFile) <==> req == PostFile("")
    ensures v == Reject(FileTypeNotAllowed) <==> req.PostFile? && req.filename != "" && !AllowedFile(req.filename)
    ensures v.Accept? <==> req.PostFile? && AllowedFile(req.filename)
    ensures v.Accept? ==> v.filename == req.filename
  {
    match req
    case Get => RedirectHome
    case PostWithoutFile => Reject(NoFilePart)
    case PostFile(filename) =>
      if filename == "" then Reject(NoSelectedFile)
      else if AllowedFile(filename) then Accept(filename)
      else Reject(FileTypeNotAllowed)
  }

  // ---------------------------------------------------------------------
  // upload_file: naming

  /** The three names one upload produces from one uuid. */
  datatype Names = Names(stored: string, downloadUrl: string, qrFile: string)

  function Naming(uuid: string, safeName: string, localIp: string): Names
  {
    var stored := uuid + "_" + safeName;
    Names(stored, BaseUrl(localIp) + "/download/" + stored, uuid + ".png")
  }

  /** The route `/download/<filename>` as Flask matches a URL of this
      server: the path after the base must be one non-empty segment. */
  function DownloadRoute(url: string, localIp: string): (r: Option<string>)
    ensures r.Some? ==> r.value != [] && '/' !in r.value && url == BaseUrl(localIp) + "/download/" + r.value
  {
    var prefix := BaseUrl(localIp) + "/download/";
    if |prefix| < |url| && url[..|prefix|] == prefix && '/' !in url[|prefix|..]
    then Some(url[|prefix|..])
    else None
  }

  /** A URL made of the base, `/download/` and one segment routes to that
      segment. */
  lemma DownloadRouteOf(localIp: string, segment: string)
    requires segment != [] && '/' !in segment
    ensures DownloadRoute(BaseUrl(localIp) + "/download/" + segment, localIp) == Some(segment)
  {
    var prefix := BaseUrl(localIp) + "/download/";
    assert (prefix + segment)[..|prefix|] == prefix;
    assert (prefix + segment)[|prefix|..] == segment;
  }

  /** Splitting the stored name at its first `_` gives the uuid and the
      sanitized name back. */
  lemma StoredNameGivesUuid(uuid: string, safeName: string)
    requires '_' !in uuid
    ensures SplitOnce(uuid + "_" + safeName, '_') == Some((uuid, safeName))
  {
    SplitOnceAt(uuid, '_', safeName);
  }

  /** Dropping the extension of the QR file name gives the uuid back. */
  lemma QrFileGivesUuid(uuid: string)
    requires '.' !in uuid
    ensures RSplitOnce(uuid + ".png", '.') == Some((uuid, "png"))
  {
    var extension := "png";
    assert '.' !in extension;
    assert uuid + ".png" == uuid + "." + extension;
    RSplitOnceAt(uuid, '.', extension);
  }

  /** The stored name, the URL and the QR file name all carry the same uuid,
      and each gives it back: the stored name by splitting at its first `_`,
      the QR name by dropping `.png`, the URL by routing to the stored name. */
  lemma NamingSharesUuid(uuid: string, safeName: string, localIp: string)
    requires '_' !in uuid && '.' !in uuid && '/' !in uuid && '/' !in safeName
    ensures var n := Naming(uuid, safeName, localIp);
      && SplitOnce(n.stored, '_') == Some((uuid, safeName))
      && RSplitOnce(n.qrFile, '.') == Some((uuid, "png"))
      && DownloadRoute(n.downloadUrl, localIp) == Some(n.stored)
  {
    var stored := uuid + "_" + safeName;
    StoredNameGivesUuid(uuid, safeName);
    QrFileGivesUuid(uuid);
    assert '/' !in stored by {
      assert stored == uuid + ("_" + safeName);
    }
    DownloadRouteOf(localIp, stored);
  }

  // ---------------------------------------------------------------------
  // upload_file: effects

  /** An exception inside the handler's `try`: saving the upload, or
      writing the QR image after the upload was saved. */
  datatype Fault = NoFault | SaveFault(detail: string) | QrFault(detail: string)

  datatype Page =
    | Redirect
    | IndexPage(error: string)
    | ResultPage(qrCode: string, filename: string, downloadUrl: string, expiryMinutes: int, serverIp: string)

  /** `upload_file`. `secure` stands for werkzeug's `secure_filename`,
      `uuid` for `str(uuid.uuid4())`, `now` for the clock at write time. */
  method UploadFile(uploads: Folder, qrcodes: Folder, req: Request, secure: string -> string,
                    uuid: string, localIp: string, now: int, fault: Fault) returns (page: Page)
    requires uploads != qrcodes
    modifies uploads, qrcodes
    ensures !Screen(req).Accept? ==>
      && page == (if req.Get? then Redirect else IndexPage(Screen(req).message))
      && uploads.entries == old(uploads.entries)
      && qrcodes.entries == old(qrcodes.entries)
    ensures Screen(req).Accept? ==>
      var safeName := secure(req.filename);
      var n := Naming(uuid, safeName, localIp);
      && uploads.entries == (if fault.SaveFault? then old(uploads.entries)
                             else old(uploads.entries)[n.stored := Entry(true, now)])
      && qrcodes.entries == (if fault.NoFault? then old(qrcodes.entries)[n.qrFile := Entry(true, now)]
                             else old(qrcodes.entries))
      && page == (if fault.NoFault?
                  then ResultPage("/" + QrFolder + "/" + n.qrFile, safeName, n.downloadUrl, FileExpiry / 60, localIp)
                  else IndexPage(ProcessingErrorPrefix + fault.detail))
  {
    var verdict := Screen(req);
    if verdict.RedirectHome? {
      return Redirect;
    }
    if verdict.Reject? {
      return IndexPage(verdict.message);
    }
    var safeName := secure(verdict.filename);
    var n := Naming(uuid, safeName, localIp);
    if fault.SaveFault? {
      return IndexPage(ProcessingErrorPrefix + fault.detail);
    }
    uploads.Save(n.stored, now);
    if fault.QrFault? {
      return IndexPage(ProcessingErrorPrefix + fault.detail);
    }
    qrcodes.Save(n.qrFile, now);
    page := ResultPage("/" + QrFolder + "/" + n.qrFile, safeName, n.downloadUrl, FileExpiry / 60, localIp);
  }

  /** The result page shows the expiry in minutes. */
  lemma ExpiryShownInMinutes()
    ensures FileExpiry / 60 == 60
  {
  }

  // ---------------------------------------------------------------------
  // download_file

  datatype Response = Attachment(name: string) | NotFound

  /** `send_from_directory(UPLOAD_FOLDER, filename, as_attachment=True)` over
      the folder's entries at request time: any regular file that is there
      is served, whatever its age; anything else is a 404. */
  function DownloadFile(files: map<string, Entry>, filename: string): (r: Response)
    ensures r.Attachment? <==> filename in files && files[filename].regular
    ensures r.Attachment? ==> r.name == filename
  {
    if filename in files && files[filename].regular then Attachment(filename) else NotFound
  }

  /** Upload then download: the URL of a fresh upload routes to its stored
      name, and the folder serves it, whatever else the folder held. */
  lemma UploadThenDownload(files: map<string, Entry>, uuid: string, safeName: string, localIp: string, now: int)
    requires Uuid.IsUuid4String(uuid) && '/' !in safeName
    ensures var n := Naming(uuid, safeName, localIp);
      && DownloadRoute(n.downloadUrl, localIp) == Some(n.stored)
      && DownloadFile(files[n.stored := Entry(true, now)], n.stored) == Attachment(n.stored)
  {
    Uuid.Uuid4Alphabet(uuid);
    NamingSharesUuid(uuid, safeName, localIp);
  }

  /** After a sweep at `now`, a regular file that was stored is still served
      exactly when it was young enough or its removal failed: there is no
      second age check on the download path. */
  lemma ServedAfterSweep(files: map<string, Entry>, failing: set<string>, now: int, filename: string)
    requires filename in files && files[filename].regular
    ensures DownloadFile(Swept(files, failing, now, FileExpiry), filename).Attachment?
        <==> now - files[filename].stamp <= FileExpiry || filename in failing
  {
    SweptKeeps(files, failing, now, FileExpiry, filename);
  }

  // ---------------------------------------------------------------------
  // cleanup_old_files: one pass

  /** The names whose removal raised during a pass over `listing`, in the
      order the pass met them: what the pass logs. */
  function FailedRemovals(m: map<string, Entry>, listing: seq<string>, failing: set<string>, now: int): (r: seq<string>)
    ensures |r| <= |listing|
  {
    if listing == [] then []
    else
      var last := listing[|listing| - 1];
      FailedRemovals(m, listing[..|listing| - 1], failing, now)
        + (if last in failing && last in m && Doomed(m[last], now, FileExpiry) then [last] else [])
  }

  /** A pass logs exactly the listed regular files past the expiry whose
      removal raised. */
  lemma {:induction false} FailedRemovalsAre(m: map<string, Entry>, listing: seq<string>, failing: set<string>, now: int, name: string)
    ensures name in FailedRemovals(m, listing, failing, now)
        <==> name in listing && name in failing && name in m && Doomed(m[name], now, FileExpiry)
  {
    if listing != [] {
      var init := listing[..|listing| - 1];
      FailedRemovalsAre(m, init, failing, now, name);
      assert listing == init + [listing[|listing| - 1]];
    }
  }

  /** A listing names each entry once, so a pass logs each name at most
      once. */
  lemma {:induction false} FailedRemovalsDistinct(m: map<string, Entry>, listing: seq<string>, failing: set<string>, now: int)
    requires forall i, j :: 0 <= i < j < |listing| ==> listing[i] != listing[j]
    ensures var r := FailedRemovals(m, listing, failing, now);
      forall i, j :: 0 <= i < j < |r| ==> r[i] != r[j]
  {
    if listing != [] {
      var init, last := listing[..|listing| - 1], listing[|listing| - 1];
      FailedRemovalsDistinct(m, init, failing, now);
      FailedRemovalsAre(m, init, failing, now, last);
      assert last !in init by {
        forall i | 0 <= i < |init| ensures init[i] != last {
          assert init[i] == listing[i];
        }
      }
    }
  }

  /** How the state of a pass after `listing[..i + 1]` follows from the
      state after `listing[..i]`. */
  lemma SweepStep(m: map<string, Entry>, listing: seq<string>, i: nat, failing: set<string>, now: int)
    requires i < |listing|
    ensures var name, before := listing[i], Purge(m, listing[..i], failing, now, FileExpiry);
      && Purge(m, listing[..i + 1], failing, now, FileExpiry)
         == (if name in before && Doomed(before[name], now, FileExpiry) && name !in failing
             then before - {name} else before)
      && FailedRemovals(m, listing[..i + 1], failing, now)
         == FailedRemovals(m, listing[..i], failing, now)
            + (if name in before && Doomed(before[name], now, FileExpiry) && name in failing then [name] else [])
  {
    assert listing[..i + 1] == listing[..i] + [listing[i]];
    assert listing[..i + 1][..i] == listing[..i];
  }

  /** At the end of the listing the pass has swept the whole folder. */
  lemma SweepDone(m: map<string, Entry>, listing: seq<string>, failing: set<string>, now: int)
    requires IsListing(listing, m)
    ensures Purge(m, listing[..|listing|], failing, now, FileExpiry) == Swept(m, failing, now, FileExpiry)
    ensures FailedRemovals(m, listing[..|listing|], failing, now) == FailedRemovals(m, listing, failing, now)
  {
    assert listing[..|listing|] == listing;
    PurgeListing(m, listing, failing, now, FileExpiry);
  }

  /** One folder of one pass: every listed regular file older than
      `FileExpiry` is removed; a removal in `failing` raises, is logged, and
      the pass goes on. Returns the names it logged. */
  method SweepFolder(folder: Folder, listing: seq<string>, failing: set<string>, now: int) returns (errors: seq<string>)
    requires IsListing(listing, folder.entries)
    modifies folder
    ensures folder.entries == Swept(old(folder.entries), failing, now, FileExpiry)
    ensures errors == FailedRemovals(old(folder.entries), listing, failing, now)
  {
    ghost var m := folder.entries;
    errors := [];
    var i := 0;
    assert Purge(m, listing[..0], failing, now, FileExpiry) == m;
    while i < |listing|
      invariant 0 <= i <= |listing|
      invariant folder.entries == Purge(m, listing[..i], failing, now, FileExpiry)
      invariant errors == FailedRemovals(m, listing[..i], failing, now)
    {
      var name := listing[i];
      SweepStep(m, listing, i, failing, now);
      if name in folder.entries && Doomed(folder.entries[name], now, FileExpiry) {
        if name in failing {
          errors := errors + [name];
        } else {
          folder.Remove(name);
        }
      }
      i := i + 1;
    }
    SweepDone(m, listing, failing, now);
  }

  datatype LogLine = FileRemovalError(path: string) | QrRemovalError(path: string)

  /** One iteration of `cleanup_old_files`' endless loop: the uploads folder
      then the QR folder, with one reading of the clock; each folder by the
      same rule, and neither pass touches the other folder. */
  method CleanupPass(uploads: Folder, qrcodes: Folder, now: int,
                     uploadListing: seq<string>, uploadFailing: set<string>,
                     qrListing: seq<string>, qrFailing: set<string>) returns (log: seq<LogLine>)
    requires uploads != qrcodes
    requires IsListing(uploadListing, uploads.entries)
    requires IsListing(qrListing, qrcodes.entries)
    modifies uploads, qrcodes
    ensures uploads.entries == Swept(old(uploads.entries), uploadFailing, now, FileExpiry)
    ensures qrcodes.entries == Swept(old(qrcodes.entries), qrFailing, now, FileExpiry)
    ensures var fileErrors := FailedRemovals(old(uploads.entries), uploadListing, uploadFailing, now);
            var qrErrors := FailedRemovals(old(qrcodes.entries), qrListing, qrFailing, now);
      && |log| == |fileErrors| + |qrErrors|
      && (forall i :: 0 <= i < |fileErrors| ==> log[i] == FileRemovalError(UploadFolder + "/" + fileErrors[i]))
      && (forall i :: 0 <= i < |qrErrors| ==> log[|fileErrors| + i] == QrRemovalError(QrFolder + "/" + qrErrors[i]))
  {
    var fileErrors := SweepFolder(uploads, uploadListing, uploadFailing, now);
    var qrErrors := SweepFolder(qrcodes, qrListing, qrFailing, now);
    var fileLines := seq(|fileErrors|, i requires 0 <= i < |fileErrors| => FileRemovalError(UploadFolder + "/" + fileErrors[i]));
    var qrLines := seq(|qrErrors|, i requires 0 <= i < |qrErrors| => QrRemovalError(QrFolder + "/" + qrErrors[i]));
    log := fileLines + qrLines;
  }
}
