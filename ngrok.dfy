/** The Streamlit variant (ngrok.py): one run of the script, which first
    cleans the upload directory and then either offers a stored file for
    download or shows the upload interface; the file id and the direct
    download link it builds; and the query of that link as `QueryParam`
    parses it. */
module Ngrok {
  import opened Text
  import opened Folders
  import Uuid

  /** Minutes a stored file lives. */
  const FileExpiry := 60
  const ExpirySeconds := FileExpiry * 60
  const UploadDir := "uploaded_files"

  // ---------------------------------------------------------------------
  // File ids

  /** `f"{uuid.uuid4()}_{uploaded_file.name}"`. */
  function FileId(uuid: string, name: string): string
  {
    uuid + "_" + name
  }

  /** `file_id.split("_", 1)[1]`; `None` stands for the `IndexError` raised
      when the id holds no `_`. */
  function ExtractName(fileId: string): (r: Option<string>)
    ensures r.None? <==> '_' !in fileId
    ensures r.Some? ==> exists prefix :: '_' !in prefix && fileId == prefix + "_" + r.value
  {
    match SplitOnce(fileId, '_')
    case None => None
    case Some((prefix, rest)) => Some(rest)
  }

  /** The name comes back unchanged from its id, even when it holds `_`
      itself, because the uuid in front holds none. */
  lemma FileIdRoundTrip(uuid: string, name: string)
    requires '_' !in uuid
    ensures ExtractName(FileId(uuid, name)) == Some(name)
  {
    SplitOnceAt(uuid, '_', name);
  }

  // ---------------------------------------------------------------------
  // The direct download link and the query string sent back

  /** `get_direct_download_url`: the id goes into the query unescaped. */
  function DirectDownloadUrl(appUrl: string, fileId: string): string
  {
    appUrl + "?file_id=" + fileId + "&download=true"
  }

  predicate IsHex(ch: char)
  {
    '0' <= ch <= '9' || 'a' <= ch <= 'f' || 'A' <= ch <= 'F'
  }

  function HexValue(ch: char): (v: nat)
    requires IsHex(ch)
    ensures v < 16
  {
    if '0' <= ch <= '9' then ch as int - '0' as int
    else if 'a' <= ch <= 'f' then ch as int - 'a' as int + 10
    else ch as int - 'A' as int + 10
  }

  /** The decoding `parse_qs` applies to names and values: `+` is a space,
      `%XY` the character with code `XY`; other text is kept. */
  function Unquote(s: string): (r: string)
    ensures '+' !in s && '%' !in s ==> r == s
  {
    if s == [] then []
    else if s[0] == '+' then " " + Unquote(s[1..])
    else if s[0] == '%' && |s| >= 3 && IsHex(s[1]) && IsHex(s[2]) then
      [(16 * HexValue(s[1]) + HexValue(s[2])) as char] + Unquote(s[3..])
    else [s[0]] + Unquote(s[1..])
  }

  /** `s.split(c)`: every piece between occurrences of `c`. */
  function SplitAll(s: string, c: char): (r: seq<string>)
    ensures |r| >= 1
    ensures c !in s ==> r == [s]
    decreases |s|
  {
    match SplitOnce(s, c)
    case None => [s]
    case Some((before, after)) => [before] + SplitAll(after, c)
  }

  /** The query of a URL: after its first `?`, before its fragment. */
  function QueryString(url: string): string
  {
    var beforeFragment := match SplitOnce(url, '#') case None => url case Some((before, _)) => before;
    match SplitOnce(beforeFragment, '?') case None => "" case Some((_, query)) => query
  }

  /** The first value `parse_qs(query, keep_blank_values=True)` gives for
      `key`, given the query's `&`-separated fields. */
  function FieldValue(fields: seq<string>, key: string): Option<string>
  {
    if fields == [] then None
    else
      var (name, value) := match SplitOnce(fields[0], '=') case None => (fields[0], "") case Some(pair) => pair;
      if fields[0] != "" && Unquote(name) == key then Some(Unquote(value))
      else FieldValue(fields[1..], key)
  }

  function QueryParam(url: string, key: string): Option<string>
  {
    FieldValue(SplitAll(QueryString(url), '&'), key)
  }

  /** The `&`-separated fields of `base?first&second` are `first` and
      `second` when neither holds `&` and nothing holds `#` or a second `?`
      before the query. */
  lemma {:induction false} TwoFields(base: string, first: string, second: string)
    requires '?' !in base && '#' !in base && '#' !in first && '#' !in second
    requires '&' !in first && '&' !in second
    ensures SplitAll(QueryString(base + "?" + first + "&" + second), '&') == [first, second]
  {
    var query := first + "&" + second;
    var url := base + "?" + query;
    assert base + "?" + first + "&" + second == url;
    assert '#' !in url;
    SplitOnceAt(base, '?', query);
    assert QueryString(url) == query;
    SplitOnceAt(first, '&', second);
  }

  /** A field `key=value` gives `value` for `key` when neither needs
      decoding and `key` has no `=`. */
  lemma FieldOf(key: string, value: string, fields: seq<string>)
    requires '=' !in key && '+' !in key && '%' !in key && '+' !in value && '%' !in value
    ensures FieldValue([key + "=" + value] + fields, key) == Some(value)
  {
    SplitOnceAt(key, '=', value);
    assert ([key + "=" + value] + fields)[0] == key + "=" + value;
  }

  /** The link is `base?file_id=<id>&download=true`, field by field. */
  lemma LinkShape(appUrl: string, fileId: string)
    ensures DirectDownloadUrl(appUrl, fileId) == appUrl + "?" + ("file_id" + "=" + fileId) + "&" + ("download" + "=" + "true")
  {
    assert "?file_id=" == "?" + "file_id" + "=";
    assert "&download=true" == "&" + ("download" + "=" + "true");
  }

  /** The two parameter names need no decoding and hold no `=`. */
  lemma PlainKeys()
    ensures '=' !in "file_id" && '+' !in "file_id" && '%' !in "file_id"
    ensures '=' !in "download" && '+' !in "download" && '%' !in "download"
    ensures '+' !in "true" && '%' !in "true" && '#' !in "true" && '&' !in "true"
    ensures "file_id" != "download"
  {
  }

  /** The link of an id without `&` or `#` has exactly two fields. */
  lemma LinkFields(appUrl: string, fileId: string)
    requires '?' !in appUrl && '#' !in appUrl && '&' !in fileId && '#' !in fileId
    ensures SplitAll(QueryString(DirectDownloadUrl(appUrl, fileId)), '&')
         == ["file_id" + "=" + fileId, "download" + "=" + "true"]
  {
    LinkShape(appUrl, fileId);
    PlainKeys();
    TwoFields(appUrl, "file_id" + "=" + fileId, "download" + "=" + "true");
  }

  /** An id free of `&`, `#`, `+` and `%` comes back from the link exactly. */
  lemma DirectDownloadUrlRoundTrip(appUrl: string, fileId: string)
    requires '?' !in appUrl && '#' !in appUrl
    requires '&' !in fileId && '#' !in fileId && '+' !in fileId && '%' !in fileId
    ensures QueryParam(DirectDownloadUrl(appUrl, fileId), "file_id") == Some(fileId)
  {
    var second := "download" + "=" + "true";
    LinkFields(appUrl, fileId);
    PlainKeys();
    FieldOf("file_id", fileId, [second]);
    assert ["file_id" + "=" + fileId, second] == ["file_id" + "=" + fileId] + [second];
  }

  /** Such a link also carries the `download` parameter. */
  lemma DirectDownloadUrlAsksDownload(appUrl: string, fileId: string)
    requires '?' !in appUrl && '#' !in appUrl && '&' !in fileId && '#' !in fileId
    ensures QueryParam(DirectDownloadUrl(appUrl, fileId), "download") == Some("true")
  {
    var first, second := "file_id" + "=" + fileId, "download" + "=" + "true";
    LinkFields(appUrl, fileId);
    PlainKeys();
    SplitOnceAt("file_id", '=', fileId);
    FieldOf("download", "true", []);
    assert [first, second][1..] == [second] + [];
  }

  /** Because nothing is escaped, an id holding `&` is cut there:
      `QueryParam` reads only the text before the first `&`. */
  lemma DirectDownloadUrlCutsAtAmpersand(appUrl: string, head: string, tail: string)
    requires '?' !in appUrl && '#' !in appUrl
    requires '&' !in head && '#' !in head && '+' !in head && '%' !in head && '#' !in tail
    ensures QueryParam(DirectDownloadUrl(appUrl, head + "&" + tail), "file_id") == Some(head)
  {
    var idKey := "file_id";
    var first, rest := idKey + "=" + head, tail + "&download=true";
    var url := DirectDownloadUrl(appUrl, head + "&" + tail);
    var query := first + "&" + rest;
    assert url == appUrl + "?" + query by {
      assert "?file_id=" == "?" + idKey + "=";
    }
    assert '#' !in query by {
      assert '#' !in "&download=true";
    }
    SplitOnceAt(appUrl, '?', query);
    assert QueryString(url) == query;
    SplitOnceAt(first, '&', rest);
    assert SplitAll(query, '&') == [first] + SplitAll(rest, '&');
    PlainKeys();
    FieldOf(idKey, head, SplitAll(rest, '&'));
  }

  // ---------------------------------------------------------------------
  // clean_expired_files

  /** One run of `clean_expired_files` over `listing`, from directory state
      `m`: the state it leaves and the name whose removal raised, if any.
      The exception is not caught, so the run stops at that name. */
  function CleanRun(m: map<string, Entry>, listing: seq<string>, failing: set<string>, now: int)
    : (r: (map<string, Entry>, Option<string>))
    ensures forall k :: k in r.0 ==> k in m && r.0[k] == m[k]
    ensures r.1.Some? ==> r.1.value in failing && r.1.value in r.0 && Doomed(r.0[r.1.value], now, ExpirySeconds)
    decreases |listing|
  {
    if listing == [] then (m, None)
    else
      var name := listing[0];
      if name in m && Doomed(m[name], now, ExpirySeconds) then
        if name in failing then (m, Some(name))
        else CleanRun(m - {name}, listing[1..], failing, now)
      else CleanRun(m, listing[1..], failing, now)
  }

  /** A listed name whose removal would raise. */
  predicate Blocks(m: map<string, Entry>, name: string, failing: set<string>, now: int)
  {
    name in m && Doomed(m[name], now, ExpirySeconds) && name in failing
  }

  /** The position in `listing` of the first name whose removal raises, or
      `|listing|` when there is none. */
  function FirstBlocked(m: map<string, Entry>, listing: seq<string>, failing: set<string>, now: int): (j: nat)
    ensures j <= |listing|
    ensures j < |listing| ==> Blocks(m, listing[j], failing, now)
    ensures forall i :: 0 <= i < j ==> !Blocks(m, listing[i], failing, now)
  {
    if listing == [] then 0
    else if Blocks(m, listing[0], failing, now) then 0
    else 1 + FirstBlocked(m, listing[1..], failing, now)
  }

  lemma {:induction false} FirstBlockedWithout(m: map<string, Entry>, name: string, listing: seq<string>, failing: set<string>, now: int)
    requires name !in failing
    ensures FirstBlocked(m - {name}, listing, failing, now) == FirstBlocked(m, listing, failing, now)
  {
    if listing != [] {
      FirstBlockedWithout(m, name, listing[1..], failing, now);
    }
  }

  /** What a run does, in closed form: every doomed entry listed before the
      first failing removal is gone, that name is the one reported, and
      nothing else changes. */
  lemma {:induction false} CleanRunStopsAtFirstFailure(m: map<string, Entry>, listing: seq<string>, failing: set<string>, now: int)
    ensures var j := FirstBlocked(m, listing, failing, now);
      CleanRun(m, listing, failing, now)
        == (Purge(m, listing[..j], failing, now, ExpirySeconds), if j < |listing| then Some(listing[j]) else None)
    decreases |listing|
  {
    var j := FirstBlocked(m, listing, failing, now);
    if listing == [] {
      assert Purge(m, [], failing, now, ExpirySeconds) == m;
    } else {
      var name, rest := listing[0], listing[1..];
      if Blocks(m, name, failing, now) {
        assert listing[..0] == [];
        assert Purge(m, [], failing, now, ExpirySeconds) == m;
      } else if name in m && Doomed(m[name], now, ExpirySeconds) {
        CleanRunStopsAtFirstFailure(m - {name}, rest, failing, now);
        FirstBlockedWithout(m, name, rest, failing, now);
        assert listing[..j] == [name] + rest[..j - 1];
        PurgeFront(m, name, rest[..j - 1], failing, now, ExpirySeconds);
      } else {
        CleanRunStopsAtFirstFailure(m, rest, failing, now);
        assert listing[..j] == [name] + rest[..j - 1];
        PurgeFront(m, name, rest[..j - 1], failing, now, ExpirySeconds);
      }
    }
  }

  /** When no removal raises, a run over the directory's listing is the
      full sweep: exactly the regular files older than an hour are gone. */
  lemma CleanRunWithoutFailures(m: map<string, Entry>, listing: seq<string>, failing: set<string>, now: int)
    requires IsListing(listing, m)
    requires forall k :: k in m && Doomed(m[k], now, ExpirySeconds) ==> k !in failing
    ensures CleanRun(m, listing, failing, now) == (Swept(m, {}, now, ExpirySeconds), None)
  {
    CleanRunStopsAtFirstFailure(m, listing, failing, now);
    var j := FirstBlocked(m, listing, failing, now);
    assert j == |listing|;
    assert listing[..j] == listing;
    PurgeListing(m, listing, failing, now, ExpirySeconds);
    assert Swept(m, failing, now, ExpirySeconds) == Swept(m, {}, now, ExpirySeconds);
  }

  /** After a removal raises at `listing[j]`, that entry and every entry
      listed after it are left as they were. */
  lemma AbortLeavesRestUnchanged(m: map<string, Entry>, listing: seq<string>, failing: set<string>, now: int, j: nat, i: nat)
    requires IsListing(listing, m)
    requires j <= i < |listing|
    requires CleanRun(m, listing, failing, now).1 == Some(listing[j])
    ensures listing[i] in CleanRun(m, listing, failing, now).0
    ensures CleanRun(m, listing, failing, now).0[listing[i]] == m[listing[i]]
  {
    CleanRunStopsAtFirstFailure(m, listing, failing, now);
    var b := FirstBlocked(m, listing, failing, now);
    assert b < |listing| && listing[b] == listing[j];
    assert b == j;
    assert listing[i] !in listing[..j];
  }

  /** A regular file no older than an hour survives a run, whatever fails. */
  lemma YoungFileSurvives(m: map<string, Entry>, listing: seq<string>, failing: set<string>, now: int, fileId: string)
    requires fileId in m && !Doomed(m[fileId], now, ExpirySeconds)
    ensures fileId in CleanRun(m, listing, failing, now).0
    ensures CleanRun(m, listing, failing, now).0[fileId] == m[fileId]
  {
    CleanRunStopsAtFirstFailure(m, listing, failing, now);
  }

  /** `clean_expired_files`: a pass over the listing that removes each
      regular file older than an hour; a removal that raises ends the pass
      and is reported. */
  method CleanExpiredFiles(dir: Folder, listing: seq<string>, failing: set<string>, now: int) returns (raised: Option<string>)
    modifies dir
    ensures (dir.entries, raised) == CleanRun(old(dir.entries), listing, failing, now)
  {
    var i := 0;
    while i < |listing|
      invariant 0 <= i <= |listing|
      invariant CleanRun(dir.entries, listing[i..], failing, now) == CleanRun(old(dir.entries), listing, failing, now)
    {
      var name := listing[i];
      assert listing[i..][0] == name && listing[i..][1..] == listing[i + 1..];
      if name in dir.entries && Doomed(dir.entries[name], now, ExpirySeconds) {
        if name in failing {
          return Some(name);
        }
        dir.Remove(name);
      }
      i := i + 1;
    }
    raised := None;
  }

  // ---------------------------------------------------------------------
  // One run of the script

  /** An exception that ends the script: a removal during cleaning, the
      `IndexError` of an id without `_`, or opening an entry that is not a
      regular file. */
  datatype Failure = RemoveFailed(name: string) | NoUnderscore(fileId: string) | NotAFile(fileId: string)

  datatype Page =
    | Crash(failure: Failure)
    | DownloadButton(fileId: string, fileName: string)
    | NotFoundMessage
    | UploadForm
    | Shared(fileId: string, url: string)

  /** Ids that name the upload directory itself or its parent once joined
      to it: such a path always exists, whatever the directory holds. */
  predicate NamesADirectory(fileId: string)
  {
    fileId == "" || fileId == "." || fileId == ".."
  }

  /** An id holding `_`, as every stored id does, never names the directory. */
  lemma UnderscoreIdNamesAFile(fileId: string)
    requires '_' in fileId
    ensures !NamesADirectory(fileId)
  {
    assert '_' !in "" && '_' !in "." && '_' !in "..";
  }

  /** The download branch for `file_id`: any entry that exists is offered
      under the name after its first `_`, with no age check. An existing id
      without `_` raises `IndexError` before the file is opened, and so does
      an id naming the directory itself; an existing entry that is not a
      regular file fails when it is opened. */
  function DownloadView(m: map<string, Entry>, fileId: string): (p: Page)
    ensures p == NotFoundMessage <==> fileId !in m && !NamesADirectory(fileId)
    ensures p.DownloadButton? <==> fileId in m && m[fileId].regular && '_' in fileId
    ensures p.DownloadButton? ==> p.fileId == fileId && ExtractName(fileId) == Some(p.fileName)
    ensures (fileId in m || NamesADirectory(fileId)) && '_' !in fileId ==> p == Crash(NoUnderscore(fileId))
    ensures fileId in m && '_' in fileId && !m[fileId].regular ==> p == Crash(NotAFile(fileId))
  {
    if fileId !in m && !NamesADirectory(fileId) then NotFoundMessage
    else match ExtractName(fileId)
      case None => Crash(NoUnderscore(fileId))
      case Some(name) => if m[fileId].regular then DownloadButton(fileId, name) else Crash(NotAFile(fileId))
  }

  /** The script from top to bottom: clean, then the download branch when
      both `file_id` and `download` are query parameters, else the upload
      interface, which stores a chosen file and shows its link. */
  method RunScript(dir: Folder, listing: seq<string>, failing: set<string>, now: int,
                   params: map<string, string>, chosen: Option<string>, uuid: string, appUrl: string)
    returns (page: Page)
    modifies dir
    ensures var (cleaned, raised) := CleanRun(old(dir.entries), listing, failing, now);
      if raised.Some? then
        page == Crash(RemoveFailed(raised.value)) && dir.entries == cleaned
      else if "file_id" in params && "download" in params then
        page == DownloadView(cleaned, params["file_id"]) && dir.entries == cleaned
      else if chosen.None? then
        page == UploadForm && dir.entries == cleaned
      else
        var fileId := FileId(uuid, chosen.value);
        page == Shared(fileId, DirectDownloadUrl(appUrl, fileId)) && dir.entries == cleaned[fileId := Entry(true, now)]
  {
    var raised := CleanExpiredFiles(dir, listing, failing, now);
    if raised.Some? {
      return Crash(RemoveFailed(raised.value));
    }
    if "file_id" in params && "download" in params {
      return DownloadView(dir.entries, params["file_id"]);
    }
    if chosen.None? {
      return UploadForm;
    }
    var fileId := FileId(uuid, chosen.value);
    dir.Save(fileId, now);
    page := Shared(fileId, DirectDownloadUrl(appUrl, fileId));
  }

  /** Share then scan: the link of a stored upload whose name has none of
      `&`, `#`, `+`, `%` leads back to a download of that file under its
      own name. */
  lemma ShareThenDownload(m: map<string, Entry>, uuid: string, name: string, appUrl: string, stamp: int)
    requires Uuid.IsUuid4String(uuid)
    requires '?' !in appUrl && '#' !in appUrl
    requires '&' !in name && '#' !in name && '+' !in name && '%' !in name
    ensures var fileId := FileId(uuid, name);
      var url := DirectDownloadUrl(appUrl, fileId);
      && QueryParam(url, "download").Some?
      && QueryParam(url, "file_id") == Some(fileId)
      && DownloadView(m[fileId := Entry(true, stamp)], fileId) == DownloadButton(fileId, name)
  {
    Uuid.Uuid4Alphabet(uuid);
    var fileId := FileId(uuid, name);
    assert '&' !in fileId && '#' !in fileId && '+' !in fileId && '%' !in fileId;
    DirectDownloadUrlRoundTrip(appUrl, fileId);
    DirectDownloadUrlAsksDownload(appUrl, fileId);
    FileIdRoundTrip(uuid, name);
  }

  /** Share then scan, for a name with `&`: the link asks for the id cut at
      the `&`, which is not the stored file, so the page reports it missing. */
  lemma AmpersandNameNotFound(uuid: string, head: string, tail: string, appUrl: string, stamp: int)
    requires Uuid.IsUuid4String(uuid)
    requires '?' !in appUrl && '#' !in appUrl
    requires '&' !in head && '#' !in head && '+' !in head && '%' !in head && '#' !in tail
    ensures var fileId := FileId(uuid, head + "&" + tail);
      var asked := QueryParam(DirectDownloadUrl(appUrl, fileId), "file_id");
      && asked == Some(FileId(uuid, head))
      && DownloadView(map[fileId := Entry(true, stamp)], asked.value) == NotFoundMessage
  {
    Uuid.Uuid4Alphabet(uuid);
    var fileId := FileId(uuid, head + "&" + tail);
    assert fileId == FileId(uuid, head) + "&" + tail;
    assert '&' !in FileId(uuid, head) && '#' !in FileId(uuid, head);
    DirectDownloadUrlCutsAtAmpersand(appUrl, FileId(uuid, head), tail);
    UnderscoreIdNamesAFile(FileId(uuid, head));
    assert |FileId(uuid, head)| < |fileId|;
  }

  /** Within the hour an upload survives the script's cleaning and the
      download view of the cleaned directory offers it (`RunScript` reaches
      that view only when the cleaning raised nothing); once older, a
      cleaning with no failing removal makes the view report it missing. */
  lemma OfferedUntilExpired(m: map<string, Entry>, listing: seq<string>, failing: set<string>, uuid: string, name: string, now: int)
    requires Uuid.IsUuid4String(uuid)
    requires FileId(uuid, name) in m && m[FileId(uuid, name)].regular
    ensures now - m[FileId(uuid, name)].stamp <= ExpirySeconds ==>
      DownloadView(CleanRun(m, listing, failing, now).0, FileId(uuid, name)) == DownloadButton(FileId(uuid, name), name)
    ensures now - m[FileId(uuid, name)].stamp > ExpirySeconds && IsListing(listing, m)
            && (forall k :: k in m && Doomed(m[k], now, ExpirySeconds) ==> k !in failing) ==>
      DownloadView(CleanRun(m, listing, failing, now).0, FileId(uuid, name)) == NotFoundMessage
  {
    var fileId := FileId(uuid, name);
    Uuid.Uuid4Alphabet(uuid);
    FileIdRoundTrip(uuid, name);
    if now - m[fileId].stamp <= ExpirySeconds {
      YoungFileSurvives(m, listing, failing, now, fileId);
    }
    if now - m[fileId].stamp > ExpirySeconds && IsListing(listing, m)
       && (forall k :: k in m && Doomed(m[k], now, ExpirySeconds) ==> k !in failing) {
      CleanRunWithoutFailures(m, listing, failing, now);
    }
  }
}
