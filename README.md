# FT-streamlit: file sharing by QR code, in Dafny

FT-streamlit shares a file through a QR code. Someone uploads a file, the
server stores it under a fresh name, and it shows a QR code of a link that
downloads the file. A background sweep deletes stored files after an hour.
There are two variants:

- `app.py` is a Flask server. It screens the upload by its extension. It
  stores the file as `<uuid>_<secure name>`, writes `<uuid>.png` as the QR
  image, and serves `/download/<name>`. A daemon thread sweeps both folders
  every five minutes; it logs a removal that fails and carries on.
- `ngrok.py` is a Streamlit script. It stores the file as `<uuid>_<name>`
  and links it as `<app_url>?file_id=<id>&download=true`. When the page is
  opened with both query parameters it offers that file under the name after
  the first `_`. Each run first cleans the directory, and a removal that
  fails ends the run.

The project has five modules:

| file | module | what it holds |
|---|---|---|
| `text.dfy` | `Text` | `str.split(c, 1)`, `str.rsplit(c, 1)` and `str.lower()` as far as the scripts use them, with their round-trip lemmas |
| `uuid.dfy` | `Uuid` | the text form of a version-4 UUID (section 3 of RFC 4122) and its alphabet |
| `folders.dfy` | `Folders` | a directory as a `Folder` object whose `entries` map each name to whether it is a regular file and its time stamp; the sweep rule (`Doomed`), the specification of a sweep (`Purge`, `Swept`) and its lemmas |
| `app.dfy` | `App` | `allowed_file`, screening and naming in `upload_file`, the handler's effects on both folders, `download_file`, and one pass of `cleanup_old_files` |
| `ngrok.dfy` | `Ngrok` | file ids and name extraction, the direct download link and its query as `QueryParam` parses it, `clean_expired_files`, and one run of the script |

Time is in whole seconds. The clock, the uuid, the local IP, the app URL,
`secure_filename`, what `os.listdir` returns and which removals raise are
all parameters. A method that sweeps a folder is proved against a
specification function of the old directory state (`Swept`, `CleanRun`),
and lemmas prove what that function keeps and removes.

## Model

| member | source | states |
|---|---|---|
| Text.SplitOnce | ngrok.py:61 | `split(c, 1)` finds nothing exactly when `c` is absent; otherwise the text is `before + c + after`, and `before` has no `c` |
| Text.RSplitOnce | app.py:45 | `rsplit(c, 1)` finds nothing exactly when `c` is absent; otherwise the text is `before + c + after`, and `after` has no `c` |
| Text.SplitOnceAt | ngrok.py:61 | splitting `u + c + v` at the first `c` gives back `u` and `v` whenever `u` has no `c`, even if `v` has some |
| Text.RSplitOnceAt | app.py:45 | splitting `u + c + v` at the last `c` gives back `u` and `v` whenever `v` has no `c` |
| Text.Lower | app.py:45 | lower-casing keeps the length of the extension |
| Uuid.Uuid4Alphabet | ngrok.py:76 | a uuid4 string holds only hex digits and `-`, so it has no `_`, `/`, `.`, `&`, `#`, `+` or `%` |
| Uuid.Uuid4Example | app.py:107 | a concrete `str(uuid.uuid4())` value meets the grammar, so the grammar admits inputs |
| Folders.Doomed | app.py:68 | the sweep rule of both scripts, a regular file whose age is strictly above the threshold (also ngrok.py:23-25); `SweptKeeps` and `CleanRunWithoutFailures` state which entries it removes |
| Folders.IsListing | app.py:66 | what `os.listdir` returns: each entry of the directory exactly once, in some order |
| Folders.Purge | app.py:66-72 | the directory after handling the names of one part of the listing: the doomed entries named there are gone unless their removal raised; the loop invariant of both passes |
| Folders.Swept | app.py:66-72 | the directory after one full pass: every doomed entry is gone unless its removal raised; `SweptKeeps` states it entry by entry |
| Folders.PurgeListing | app.py:66-68 | removing the doomed entries of every listed name is the whole sweep when the listing names each entry once |
| Folders.PurgeFront | ngrok.py:21-26 | handling one name and then the rest of the listing is handling the whole listing |
| Folders.SweptKeeps | app.py:68-72 | a sweep keeps an entry exactly when it is not a regular file older than the threshold, or its removal raised; it keeps that entry unchanged |
| Folders.SweptIdempotent | app.py:63-68 | a second sweep at the same instant removes nothing more |
| Folders.SweptLaterKeepsLess | app.py:63-68 | with no failing removals, a later sweep keeps a subset of what an earlier one keeps |
| Folders.Folder.Remove | app.py:70 | `os.remove` deletes that one entry and leaves every other entry as it was |
| Folders.Folder.Save | app.py:112 | writing a file creates or overwrites one regular entry stamped with the write time and leaves the others |
| App.BaseUrl | app.py:22-25 | `BASE_URL` is `http://`, the address, `:` and the port, and the port is what follows its last `:` |
| App.AllowedFile | app.py:44-45 | `allowed_file`: a dot, and the text after the last dot, lower-cased, in the extension set; its properties are the four `AllowedFile…` lemmas below |
| App.AllowedFileByExtension | app.py:44-45 | a name with a dot is accepted exactly when its text after the last dot, lower-cased, is one of the eleven extensions |
| App.AllowedFileNeedsDot | app.py:45 | a name without a dot is rejected |
| App.AllowedFileIgnoresCase | app.py:32-45 | `r.PDF` is accepted: case does not matter |
| App.AllowedFileRejections | app.py:32-45 | `a.tar.gz` (only the last extension counts) and `notes.` (an empty extension) are rejected |
| App.Screen | app.py:91-103 | GET redirects home; a POST without a file part gets "No file part"; an empty name gets "No selected file"; a non-empty disallowed name gets "File type not allowed"; exactly the allowed names are accepted, each check in that order |
| App.Naming | app.py:106-118 | the stored name `<uuid>_<secure name>`, the URL `BASE_URL/download/<stored name>` and the QR name `<uuid>.png`; `NamingSharesUuid` proves that all three give back the uuid |
| App.DownloadRoute | app.py:141 | the route `/download/<filename>` on this server; any name it yields is non-empty, has no `/`, and rebuilds the URL when put after `BASE_URL/download/` |
| App.StoredNameGivesUuid | app.py:106-108 | the stored name splits at its first `_` into the uuid and the sanitized name |
| App.QrFileGivesUuid | app.py:118 | the QR file name is the uuid plus the extension `png` |
| App.DownloadRouteOf | app.py:141-143 | a URL made of the base URL, `/download/` and one non-empty segment without `/` routes to that segment |
| App.NamingSharesUuid | app.py:106-118 | the stored name, the QR file name and the download URL of one upload give back the same uuid, and the URL routes to the stored name |
| App.UploadFile | app.py:89-139 | rejected requests change no folder and get their message or a redirect; an accepted one saves `<uuid>_<secure name>` and then `<uuid>.png`; the result page shows the QR path, the secure name, the URL, the expiry in minutes and the IP; a failure in saving or in the QR step leaves what was written before it and shows the error message |
| App.ExpiryShownInMinutes | app.py:131 | the page shows an expiry of 60 minutes |
| App.DownloadFile | app.py:141-143 | a name is served as an attachment exactly when it is a regular file in the uploads folder, with no check of its age |
| App.UploadThenDownload | app.py:106-143 | the URL of a fresh upload routes to its stored name, and the folder serves that name whatever else it holds |
| App.ServedAfterSweep | app.py:61-143 | after a sweep, a stored file is served exactly when it was at most an hour old or its removal raised |
| App.FailedRemovals | app.py:69-72 | the errors a pass logs, in listing order; there are no more of them than listed names |
| App.FailedRemovalsDistinct | app.py:66-72 | since a listing names each entry once, a pass logs each name at most once |
| App.FailedRemovalsAre | app.py:66-72 | a pass logs exactly the listed regular files older than an hour whose removal raised |
| App.SweepFolder | app.py:66-72 | one pass over a folder leaves exactly `Swept` of its old entries; a failing removal is logged and the pass goes on with the rest; the errors are the failed names in listing order |
| App.CleanupPass | app.py:61-81 | one clock reading; each folder is swept by the same rule and neither pass touches the other folder; the log has the upload errors and then the QR errors, each with its folder path |
| Ngrok.FileId | ngrok.py:76 | the id `<uuid>_<name>`; `FileIdRoundTrip` proves that the name comes back from it |
| Ngrok.ExtractName | ngrok.py:61 | extraction fails (the `IndexError`) exactly when the id has no `_`; otherwise it returns the text after the first `_` |
| Ngrok.FileIdRoundTrip | ngrok.py:61-76 | the name comes back from `uuid + "_" + name` unchanged, even when the name holds `_` |
| Ngrok.HexValue | ngrok.py:53 | a hex digit of a `%XY` escape has a value below 16 |
| Ngrok.Unquote | ngrok.py:53 | query decoding leaves text without `+` or `%` unchanged |
| Ngrok.SplitAll | ngrok.py:53 | splitting a query at `&` yields at least one field, and exactly the whole text when there is no `&` |
| Ngrok.QueryString | ngrok.py:53 | the query of a URL as read back here: after the first `?`, before the first `#` |
| Ngrok.FieldValue | ngrok.py:53-57 | the first non-empty `&`-field whose decoded name is the key gives the decoded value; a field without `=` has the empty value |
| Ngrok.QueryParam | ngrok.py:53-57 | the value of one query parameter of a URL, from `QueryString` and `FieldValue`; the link lemmas below state what it reads from a direct download link |
| Ngrok.TwoFields | ngrok.py:47 | `base?first&second` has the query fields `first` and `second` |
| Ngrok.FieldOf | ngrok.py:53-57 | a field `key=value` gives `value` for `key` |
| Ngrok.DirectDownloadUrl | ngrok.py:44-47 | the link is the app URL, `?file_id=`, the id with nothing escaped, and `&download=true`; its properties are the three `DirectDownloadUrl…` lemmas below: the id comes back when it has no `&`, `#`, `+` or `%`, the `download` parameter comes back as `true`, and an id with `&` comes back cut |
| Ngrok.LinkFields | ngrok.py:44-47 | the link of an id without `&` or `#` has exactly two query fields |
| Ngrok.DirectDownloadUrlRoundTrip | ngrok.py:44-57 | the `file_id` that `QueryParam` reads from the link is the id exactly, when the id has no `&`, `#`, `+` or `%` |
| Ngrok.DirectDownloadUrlAsksDownload | ngrok.py:44-55 | the link carries the `download` parameter with the value `true` |
| Ngrok.DirectDownloadUrlCutsAtAmpersand | ngrok.py:44-57 | the id is not escaped, so an id with `&` comes back cut at its first `&` |
| Ngrok.CleanRun | ngrok.py:18-26 | a cleaning run keeps every kept entry unchanged; when it stops, it names a regular file older than an hour, still present, whose removal raised |
| Ngrok.FirstBlocked | ngrok.py:21-26 | the position of the first listed name whose removal raises; no name before it raises |
| Ngrok.FirstBlockedWithout | ngrok.py:26 | removing an entry that does not fail does not move the first failing position |
| Ngrok.CleanRunStopsAtFirstFailure | ngrok.py:18-26 | a run removes the old regular files listed before the first failing removal, reports that name, and changes nothing else |
| Ngrok.CleanRunWithoutFailures | ngrok.py:11-26 | with no failing removal, a run over the listing removes exactly the regular files older than 3600 seconds |
| Ngrok.AbortLeavesRestUnchanged | ngrok.py:26 | once a removal raises, that entry and every entry listed after it keep their old state |
| Ngrok.YoungFileSurvives | ngrok.py:23-25 | a regular file at most an hour old survives a run unchanged, whatever fails |
| Ngrok.CleanExpiredFiles | ngrok.py:18-26 | the loop leaves the directory, and reports a failure, exactly as `CleanRun` of the old state says |
| Ngrok.NamesADirectory | ngrok.py:58-60 | the ids `""`, `.` and `..`, which name the upload directory or its parent once joined to it, so `os.path.exists` is true for them |
| Ngrok.UnderscoreIdNamesAFile | ngrok.py:58-76 | an id holding `_`, as every stored id does, is never one of those |
| Ngrok.DownloadView | ngrok.py:58-65 | a missing id gets the not-found message, except `""`, `.` and `..`, which name the directory itself or its parent and end in the `IndexError`; an existing regular file with `_` in its id is offered under the name after the first `_`, with no age check; an existing id without `_` ends in the `IndexError`; an existing non-regular entry with `_` in its id fails when it is opened |
| Ngrok.RunScript | ngrok.py:49-82 | clean first; a failing removal ends the run; then the download branch exactly when both `file_id` and `download` are parameters; otherwise the upload form, or the chosen file stored under a new id and shown with its link |
| Ngrok.ShareThenDownload | ngrok.py:44-82 | when the name has none of `&`, `#`, `+`, `%`, `QueryParam` reads the id of a fresh upload back from its link, with the `download` parameter, and the download branch offers that file under its own name |
| Ngrok.AmpersandNameNotFound | ngrok.py:44-82 | for a name with `&`, `QueryParam` reads from the link an id that was never stored, so the page reports the file missing |
| Ngrok.OfferedUntilExpired | ngrok.py:18-65 | within the hour an upload survives every cleaning, and the download view of the cleaned directory offers it; `RunScript` reaches that view only when the cleaning raised nothing. After the hour, a cleaning over the whole listing with no failing removal makes the view report it missing |

## Left out

- Flask routing, `render_template`, `redirect`, `send_from_directory` and the Streamlit widgets are HTTP and UI plumbing. Pages are modelled as datatypes holding the values shown.
- QR image rendering (`qrcode`) is a third-party library. Writing the QR image is a `Save` of its file name, and its failure is the `QrFault` input.
- `get_local_ip` probes the network. The IP is a parameter.
- `secure_filename` from werkzeug is a foreign call. It is the uninterpreted function parameter `secure`.
- `uuid.uuid4()` is random. The uuid is an input string meeting the grammar of section 3 of RFC 4122.
- The `while True` loop, `time.sleep(300)` and the daemon thread are scheduling and concurrency. `App.CleanupPass` models one pass only.
- Time is a float in the scripts; the model uses integer seconds. `getmtime` in app.py and `getctime` in ngrok.py are both the one stamp of an entry.
- File contents, byte I/O and Flask's `MAX_CONTENT_LENGTH` limit are not modelled.
- The call `st.query_params()` and the `[0]` after it (ngrok.py:53-57) are not modelled. `Ngrok.RunScript` takes the query parameters as a map from name to one string. `Ngrok.QueryParam` takes the first value of a repeated parameter.
- How a browser or Streamlit turns a scanned link into a request is not modelled: dropping tabs and line breaks, other URL normalisation, re-encoding. The link lemmas speak of the link as `QueryParam` parses it.
- App.UploadFile: an exception's text is the `detail` field of the fault input; which calls can raise, and with what text, is not modelled.
- App.SweepFolder: the logged line holds the folder path and the name, not the exception text.
- Ngrok.RunScript: a failing removal ends with `Crash(RemoveFailed(name))` rather than Streamlit's error page.
- A directory changing during a pass is not modelled. In app.py, a file that vanishes between `isfile` and `getmtime` (app.py:68, outside the `try`) raises, nothing catches it, and the sweep thread ends. With `debug=True` (app.py:157) the reloader runs the main block in two processes, so two sweepers act on the same folders. The model has one sweeper, and `failing` is only the set of removals that raise.
- Folders.Folder.Save: writing onto a name that is a directory turns it into a regular file here. In the scripts that write raises: app.py:134 catches it (the model's `SaveFault` input), ngrok.py:79 does not.
- Ngrok.RunScript: writing the uploaded file (ngrok.py:79-80) always succeeds here. A failed write, for example a name too long for the file system, would end the run with an uncaught exception.
- Names are plain map keys. Path joining, path traversal and names holding `/` are not modelled. The one case of path joining that is modelled is `Ngrok.NamesADirectory`: the ids `""`, `.` and `..` in a link such as `?file_id=&download=true` always exist on disk.
- App.DownloadFile: the model gives one uploads folder to both halves of app.py, but they resolve the relative `uploads` differently. `send_from_directory` (app.py:143) resolves it against the directory of app.py. `file.save` (app.py:112) and `os.listdir` (app.py:66) resolve it against the working directory. The model is right only when the server starts in the directory of app.py; otherwise every download is a 404.
- Ngrok.Unquote: a `%XY` escape decodes to one character with code `XY`; the UTF-8 decoding of escape sequences is not modelled.
- Text.Lower: only ASCII letters are lowered. Python's full Unicode `lower()` is not modelled. The only non-ASCII character that lowers to ASCII letters is the Kelvin sign, which lowers to `k`, and none of the allowed extensions contains `k`.
- The download paths check no age. A file that has expired but was not yet swept is still served, and the model follows that.
