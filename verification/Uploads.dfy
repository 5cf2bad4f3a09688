/** The upload callbacks of HandlerBase::PostBodyCallback, the path shown to the
    user, and the path StaticHandler reads the file back from. */
module Uploads {
  import opened Common
  import PathCodec

  datatype PostParam = Value(value: string) | FileUpload(filename: string, localFilename: string)

  // std::ofstream: the file it has open, and whether it is still good.
  datatype Stream = Stream(target: Option<string>, good: bool)

  datatype State = State(
    postParams: map<string, PostParam>,
    disk: map<string, string>,
    saveFile: Stream,
    localFilename: string,
    uploadFileParam: string)

  function EndsInSlash(dest: string): bool {
    dest != "" && dest[|dest| - 1] == '/'
  }

  function LocalName(dest: string, uuid: string, filename: string): string {
    dest + (if EndsInSlash(dest) then "" else "/") + uuid + "_" + filename
  }

  // ---------- the callbacks ----------

  function AfterParam(s: State, name: string, value: string): State {
    s.(postParams := s.postParams[name := Value(value)])
  }

  // opens says whether the file system lets the new file be opened.  A stream
  // that is still open refuses, but is_open still holds.
  function AfterFileStart(s: State, dest: string, uuid: string, name: string, filename: string, opens: bool): State {
    var local := LocalName(dest, uuid, filename);
    var started := s.(localFilename := local, uploadFileParam := name,
                      postParams := s.postParams[name := FileUpload(filename, local)]);
    if s.saveFile.target.Some? then started.(saveFile := s.saveFile.(good := false))
    else if opens then started.(saveFile := Stream(Some(local), true), disk := s.disk[local := ""])
    else s.(localFilename := local, saveFile := Stream(None, false))
  }

  // written is how much of the data reaches the file.
  function AfterFileData(s: State, data: string, written: nat): State
    requires written <= |data|
    requires s.saveFile.target.Some? ==> s.saveFile.target.value in s.disk
  {
    if !s.saveFile.good then s
    else if s.saveFile.target.None? then s.(saveFile := s.saveFile.(good := false))
    else
      var path := s.saveFile.target.value;
      s.(disk := s.disk[path := s.disk[path] + data[..written]],
         saveFile := s.saveFile.(good := written == |data|))
  }

  function AfterFileEnd(s: State, end: bool): State {
    if !s.saveFile.good then s
    else if end then s.(saveFile := Stream(None, true))
    else s.(postParams := s.postParams - {s.uploadFileParam})
  }

  function AfterError(s: State): State {
    s.(postParams := map[])
  }

  class PostBodyCallback {
    const uploadDest: string
    var postParams: map<string, PostParam>
    var disk: map<string, string>
    var saveFile: Stream
    var localFilename: string
    var uploadFileParam: string

    function View(): State
      reads this
    {
      State(postParams, disk, saveFile, localFilename, uploadFileParam)
    }

    constructor (uploadDest: string, disk: map<string, string>)
      ensures this.uploadDest == uploadDest && View() == Fresh(disk)
    {
      this.uploadDest, this.disk := uploadDest, disk;
      postParams, saveFile, localFilename, uploadFileParam := map[], Stream(None, true), "", "";
    }

    method OnParam(name: string, value: string)
      modifies this
      ensures View() == AfterParam(old(View()), name, value)
      ensures postParams == old(postParams)[name := Value(value)]
    {
      postParams := postParams[name := Value(value)];
    }

    method OnFileStart(name: string, filename: string, uuid: string, opens: bool) returns (rc: int)
      requires uploadDest != ""
      modifies this
      ensures View() == AfterFileStart(old(View()), uploadDest, uuid, name, filename, opens)
      ensures rc == if old(saveFile.target).None? && !opens then -1 else 0
      ensures localFilename == (if uploadDest[|uploadDest| - 1] == '/' then uploadDest else uploadDest + "/")
                               + (uuid + "_" + filename)
      ensures rc == 0 ==>
        uploadFileParam == name && postParams == old(postParams)[name := FileUpload(filename, localFilename)]
      ensures rc == -1 ==> postParams == old(postParams) && !saveFile.good
      ensures old(saveFile.target).None? && opens ==>
        saveFile == Stream(Some(localFilename), true) && disk == old(disk)[localFilename := ""]
      ensures old(saveFile.target).Some? ==> saveFile == Stream(old(saveFile.target), false) && disk == old(disk)
    {
      localFilename := uploadDest + (if uploadDest[|uploadDest| - 1] != '/' then "/" else "") + uuid + "_" + filename;
      // saveFile.open
      if saveFile.target.None? && opens {
        saveFile := Stream(Some(localFilename), true);
        disk := disk[localFilename := ""];
      } else {
        saveFile := saveFile.(good := false);
      }
      if saveFile.target.None? {
        return -1;
      }
      uploadFileParam := name;
      postParams := postParams[uploadFileParam := FileUpload(filename, localFilename)];
      return 0;
    }

    method OnFileData(data: string, written: nat) returns (rc: int)
      requires written <= |data|
      requires saveFile.target.Some? ==> saveFile.target.value in disk
      modifies this
      ensures View() == AfterFileData(old(View()), data, written)
      ensures old(saveFile.good) && old(saveFile.target).Some? ==>
        var path := old(saveFile.target).value;
        disk == old(disk)[path := old(disk)[path] + data[..written]] && saveFile.target == Some(path)
      ensures saveFile.good <==> old(saveFile.good) && old(saveFile.target).Some? && written == |data|
      ensures rc == (if saveFile.good then 0 else -1) && postParams == old(postParams)
    {
      if !saveFile.good {
        return -1;
      }
      // saveFile.write
      if saveFile.target.Some? {
        disk := disk[saveFile.target.value := disk[saveFile.target.value] + data[..written]];
      }
      saveFile := saveFile.(good := saveFile.target.Some? && written == |data|);
      if !saveFile.good {
        return -1;
      }
      return 0;
    }

    method OnFileEnd(end: bool)
      modifies this
      ensures View() == AfterFileEnd(old(View()), end)
      ensures old(saveFile.good) && end ==> saveFile == Stream(None, true) && postParams == old(postParams)
      ensures old(saveFile.good) && !end ==> postParams == old(postParams) - {uploadFileParam}
      ensures !old(saveFile.good) ==> postParams == old(postParams) && saveFile == old(saveFile)
    {
      if !saveFile.good {
      } else if end {
        saveFile := Stream(None, saveFile.good);
      } else {
        postParams := postParams - {uploadFileParam};
      }
    }

    method OnError()
      modifies this
      ensures View() == AfterError(old(View()))
      ensures postParams == map[] && disk == old(disk)
    {
      postParams := map[];
    }
  }

  // ---------- what the parser promises: one part after another ----------

  datatype Part =
    | Field(name: string, value: string)
    | File(name: string, filename: string, uuid: string, chunks: seq<string>)

  function Fresh(disk: map<string, string>): State {
    State(map[], disk, Stream(None, true), "", "")
  }

  predicate Ready(s: State) {
    s.saveFile == Stream(None, true)
  }

  // The data calls of one file, each written in full.
  function Chunks(s: State, chunks: seq<string>): State
    requires s.saveFile.target.Some? ==> s.saveFile.target.value in s.disk
    decreases |chunks|
  {
    if chunks == [] then s else Chunks(AfterFileData(s, chunks[0], |chunks[0]|), chunks[1..])
  }

  // A file begun and fed its chunks, not yet ended.
  function Begin(s: State, dest: string, file: Part): State
    requires file.File? && Ready(s)
  {
    Chunks(AfterFileStart(s, dest, file.uuid, file.name, file.filename, true), file.chunks)
  }

  function Receive(s: State, dest: string, part: Part): State
    requires Ready(s)
  {
    match part
    case Field(name, value) => AfterParam(s, name, value)
    case File(_, _, _, _) => AfterFileEnd(Begin(s, dest, part), true)
  }

  function Joined(chunks: seq<string>): string {
    if chunks == [] then "" else chunks[0] + Joined(chunks[1..])
  }

  function LocalOf(dest: string, file: Part): string
    requires file.File?
  {
    LocalName(dest, file.uuid, file.filename)
  }

  lemma {:induction false} ChunksAppend(s: State, chunks: seq<string>)
    requires s.saveFile.target.Some? && s.saveFile.good && s.saveFile.target.value in s.disk
    ensures var path := s.saveFile.target.value;
      Chunks(s, chunks) == s.(disk := s.disk[path := s.disk[path] + Joined(chunks)])
    decreases |chunks|
  {
    var path := s.saveFile.target.value;
    if chunks == [] {
      assert s.disk[path] + "" == s.disk[path];
      assert s.disk[path := s.disk[path]] == s.disk;
    } else {
      var t := AfterFileData(s, chunks[0], |chunks[0]|);
      assert chunks[0][..|chunks[0]|] == chunks[0];
      assert t == s.(disk := s.disk[path := s.disk[path] + chunks[0]]);
      ChunksAppend(t, chunks[1..]);
      assert (s.disk[path] + chunks[0]) + Joined(chunks[1..]) == s.disk[path] + Joined(chunks);
      assert t.disk[path := s.disk[path] + Joined(chunks)] == s.disk[path := s.disk[path] + Joined(chunks)];
    }
  }

  // A file that has been opened and fed.
  lemma BegunHolds(s: State, dest: string, file: Part)
    requires Ready(s) && file.File?
    ensures var local := LocalOf(dest, file);
      && Begin(s, dest, file).saveFile == Stream(Some(local), true)
      && Begin(s, dest, file).disk == s.disk[local := Joined(file.chunks)]
      && Begin(s, dest, file).uploadFileParam == file.name
      && Begin(s, dest, file).postParams == s.postParams[file.name := FileUpload(file.filename, local)]
  {
    var local := LocalOf(dest, file);
    var begun := AfterFileStart(s, dest, file.uuid, file.name, file.filename, true);
    ChunksAppend(begun, file.chunks);
    assert "" + Joined(file.chunks) == Joined(file.chunks);
    assert begun.disk[local := Joined(file.chunks)] == s.disk[local := Joined(file.chunks)];
  }

  // One completed file: its bytes are its chunks joined, and nothing else moves.
  lemma ReceiveFile(s: State, dest: string, file: Part)
    requires Ready(s) && file.File?
    ensures var t := Receive(s, dest, file);
      && Ready(t)
      && t.disk == s.disk[LocalOf(dest, file) := Joined(file.chunks)]
      && t.postParams == s.postParams[file.name := FileUpload(file.filename, LocalOf(dest, file))]
  {
    BegunHolds(s, dest, file);
  }

  function ReceiveAll(s: State, dest: string, parts: seq<Part>): (t: State)
    requires Ready(s)
    ensures Ready(t)
    decreases |parts|
  {
    if parts == [] then s
    else
      assert Ready(Receive(s, dest, parts[0])) by { if parts[0].File? { ReceiveFile(s, dest, parts[0]); } }
      ReceiveAll(Receive(s, dest, parts[0]), dest, parts[1..])
  }

  // Each file gets a name that is on no disk yet and that no other file gets.
  predicate FreshNames(disk: map<string, string>, dest: string, parts: seq<Part>) {
    && (forall i :: 0 <= i < |parts| && parts[i].File? ==> LocalOf(dest, parts[i]) !in disk)
    && (forall i, j :: 0 <= i < j < |parts| && parts[i].File? && parts[j].File? ==>
          LocalOf(dest, parts[i]) != LocalOf(dest, parts[j]))
  }

  predicate LastOfItsName(parts: seq<Part>, i: nat) {
    i < |parts| && forall j :: i < j < |parts| ==> parts[j].name != parts[i].name
  }

  function ParamOf(dest: string, part: Part): PostParam {
    match part
    case Field(_, value) => Value(value)
    case File(_, filename, _, _) => FileUpload(filename, LocalOf(dest, part))
  }

  // After all parts: each name has its last part, every file received is
  // stored whole under its own name, and no other file has changed.
  lemma {:induction false} UploadsStored(s: State, dest: string, parts: seq<Part>)
    requires Ready(s) && FreshNames(s.disk, dest, parts)
    ensures var t := ReceiveAll(s, dest, parts);
      && (forall i :: 0 <= i < |parts| && parts[i].File? ==>
            LocalOf(dest, parts[i]) in t.disk && t.disk[LocalOf(dest, parts[i])] == Joined(parts[i].chunks))
      && (forall path :: path in s.disk ==> path in t.disk && t.disk[path] == s.disk[path])
    ensures var t := ReceiveAll(s, dest, parts);
      && (forall i :: 0 <= i < |parts| && LastOfItsName(parts, i) ==>
            parts[i].name in t.postParams && t.postParams[parts[i].name] == ParamOf(dest, parts[i]))
      && (forall name :: name !in PartNames(parts) ==>
            (name in t.postParams <==> name in s.postParams)
            && (name in s.postParams ==> t.postParams[name] == s.postParams[name]))
    decreases |parts|
  {
    if parts != [] {
      var p, rest := parts[0], parts[1..];
      var t := Receive(s, dest, p);
      if p.File? { ReceiveFile(s, dest, p); }
      assert FreshNames(t.disk, dest, rest) by {
        forall i | 0 <= i < |rest| && rest[i].File? ensures LocalOf(dest, rest[i]) !in t.disk {
          assert rest[i] == parts[i + 1];
        }
      }
      UploadsStored(t, dest, rest);
      forall i | 0 <= i < |parts| && LastOfItsName(parts, i)
        ensures var u := ReceiveAll(s, dest, parts);
          parts[i].name in u.postParams && u.postParams[parts[i].name] == ParamOf(dest, parts[i])
      {
        if i > 0 {
          assert rest[i - 1] == parts[i];
          assert LastOfItsName(rest, i - 1);
        } else {
          assert p.name !in PartNames(rest);
        }
      }
    }
  }

  function PartNames(parts: seq<Part>): set<string> {
    set i | 0 <= i < |parts| :: parts[i].name
  }

  // A file whose upload breaks off leaves no parameter of its name; what came
  // of it stays on the disk, and the rest is as it was.
  lemma AbortedFileAbsent(s: State, dest: string, file: Part)
    requires Ready(s) && file.File? && LocalOf(dest, file) !in s.disk
    ensures var t := AfterFileEnd(Begin(s, dest, file), false);
      && t.postParams == s.postParams - {file.name}
      && t.disk == s.disk[LocalOf(dest, file) := Joined(file.chunks)]
      && (forall path :: path in s.disk ==> path in t.disk && t.disk[path] == s.disk[path])
  {
    BegunHolds(s, dest, file);
  }

  // How a body ends: all parts whole; the last file broken off; or an error,
  // found between parts, by a file that cannot be opened, or inside a file, of
  // whose last data only written octets were stored.  After a callback that
  // fails the parser reports the error and calls no other.
  datatype Ending =
    | Complete
    | BrokenOff(file: Part)
    | Malformed
    | Unopened(file: Part)
    | Failed(file: Part, data: string, written: nat)

  predicate Possible(ending: Ending) {
    match ending
    case Complete => true
    case Malformed => true
    case BrokenOff(file) => file.File?
    case Unopened(file) => file.File?
    case Failed(file, data, written) => file.File? && written <= |data|
  }

  function Upload(s: State, dest: string, parts: seq<Part>, ending: Ending): State
    requires Ready(s) && Possible(ending)
  {
    var t := ReceiveAll(s, dest, parts);
    match ending
    case Complete => t
    case Malformed => AfterError(t)
    case BrokenOff(file) => AfterFileEnd(Begin(t, dest, file), false)
    case Unopened(file) => AfterError(AfterFileStart(t, dest, file.uuid, file.name, file.filename, false))
    case Failed(file, data, written) =>
      BegunHolds(t, dest, file);
      AfterError(AfterFileData(Begin(t, dest, file), data, written))
  }

  // The files a body leaves: those received whole, and what came of the last.
  function Left(dest: string, ending: Ending): map<string, string>
    requires Possible(ending)
  {
    match ending
    case BrokenOff(file) => map[LocalOf(dest, file) := Joined(file.chunks)]
    case Failed(file, data, written) => map[LocalOf(dest, file) := Joined(file.chunks) + data[..written]]
    case _ => map[]
  }

  // After any body: the disk has what whole parts leave and what came of the
  // last file; after an error there is no parameter at all, and after a file
  // broken off none of its name.
  lemma UploadOutcome(s: State, dest: string, parts: seq<Part>, ending: Ending)
    requires Ready(s) && Possible(ending)
    ensures var t := ReceiveAll(s, dest, parts);
      var v := Upload(s, dest, parts, ending);
      && v.disk == t.disk + Left(dest, ending)
      && v.postParams ==
           match ending
           case Complete => t.postParams
           case BrokenOff(file) => t.postParams - {file.name}
           case _ => map[]
  {
    var t := ReceiveAll(s, dest, parts);
    match ending
    case Complete =>
    case Malformed =>
    case Unopened(file) =>
    case BrokenOff(file) =>
      BegunHolds(t, dest, file);
    case Failed(file, data, written) =>
      FailedOutcome(t, dest, file, data, written);
  }

  lemma FailedOutcome(s: State, dest: string, file: Part, data: string, written: nat)
    requires Ready(s) && file.File? && written <= |data|
    ensures Begin(s, dest, file).saveFile.target == Some(LocalOf(dest, file))
    ensures LocalOf(dest, file) in Begin(s, dest, file).disk
    ensures AfterFileData(Begin(s, dest, file), data, written).disk
         == s.disk + map[LocalOf(dest, file) := Joined(file.chunks) + data[..written]]
  {
    BegunHolds(s, dest, file);
  }

  // The file an ending leaves on the disk.
  function Last(ending: Ending): seq<Part> {
    match ending
    case BrokenOff(file) => [file]
    case Failed(file, _, _) => [file]
    case _ => []
  }

  // So however a body ends, the files received whole before stay stored, and the
  // files from before it unchanged.
  lemma UploadsSurvive(s: State, dest: string, parts: seq<Part>, ending: Ending)
    requires Ready(s) && Possible(ending) && FreshNames(s.disk, dest, parts + Last(ending))
    ensures var v := Upload(s, dest, parts, ending);
      && (forall i :: 0 <= i < |parts| && parts[i].File? ==>
            LocalOf(dest, parts[i]) in v.disk && v.disk[LocalOf(dest, parts[i])] == Joined(parts[i].chunks))
      && (forall path :: path in s.disk ==> path in v.disk && v.disk[path] == s.disk[path])
  {
    var all := parts + Last(ending);
    assert forall i :: 0 <= i < |parts| ==> all[i] == parts[i];
    UploadsStored(s, dest, parts);
    UploadOutcome(s, dest, parts, ending);
    LeftIsApart(s, dest, parts, ending);
  }

  lemma LeftIsApart(s: State, dest: string, parts: seq<Part>, ending: Ending)
    requires Possible(ending) && FreshNames(s.disk, dest, parts + Last(ending))
    ensures forall path :: path in Left(dest, ending) ==>
      path !in s.disk && forall i :: 0 <= i < |parts| && parts[i].File? ==> LocalOf(dest, parts[i]) != path
  {
    var all := parts + Last(ending);
    if Last(ending) != [] {
      var last := Last(ending)[0];
      assert all[|parts|] == last && Left(dest, ending).Keys == {LocalOf(dest, last)};
      forall i | 0 <= i < |parts| && parts[i].File? ensures LocalOf(dest, parts[i]) != LocalOf(dest, last) {
        assert all[i] == parts[i];
      }
    }
  }

  // ---------- the way back ----------

  // uploadDest without the slash it may end in.
  function Trimmed(dest: string): (r: string)
    ensures r <= dest
  {
    if EndsInSlash(dest) then dest[..|dest| - 1] else dest
  }

  // The path a stored file is shown under.
  function Shown(uuid: string, filename: string): string {
    "/uploads/" + (uuid + "_" + filename)
  }

  // EditHandler::processUpload: the directory that is cut off can be put back;
  // of a file that an upload has stored, the name is left.
  method DisplayPath(dest: string, localFilename: string) returns (displayPath: string)
    requires dest != "" && |dest| <= |localFilename|
    ensures "/uploads" <= displayPath
    ensures localFilename[..|Trimmed(dest)|] + displayPath[8..] == localFilename
    ensures forall uuid: string, filename: string :: localFilename == LocalName(dest, uuid, filename) ==>
      displayPath == Shown(uuid, filename)
  {
    var baseLen := |dest| - (if dest[|dest| - 1] == '/' then 1 else 0);
    displayPath := localFilename;
    displayPath := "/uploads" + displayPath[baseLen..];
    forall uuid: string, filename: string | localFilename == LocalName(dest, uuid, filename)
      ensures displayPath == Shown(uuid, filename)
    {
      LocalNameIs(dest, uuid, filename);
    }
  }

  lemma LocalNameIs(dest: string, uuid: string, filename: string)
    ensures var local := LocalName(dest, uuid, filename);
      && local == (if EndsInSlash(dest) then dest else dest + "/") + (uuid + "_" + filename)
      && local == Trimmed(dest) + ("/" + (uuid + "_" + filename))
      && local[|Trimmed(dest)|..] == "/" + (uuid + "_" + filename)
      && "/uploads" + local[|Trimmed(dest)|..] == Shown(uuid, filename)
  {
    var rest := uuid + "_" + filename;
    assert dest + "/" + uuid + "_" + filename == (dest + "/") + rest;
    assert dest + "" + uuid + "_" + filename == dest + rest;
    assert (dest + "/") + rest == dest + ("/" + rest);
    if EndsInSlash(dest) { assert dest == Trimmed(dest) + "/"; }
    assert "/uploads" + ("/" + rest) == Shown(uuid, filename);
  }

  predicate NoLineBreak(s: string) {
    forall c :: c in s ==> c != '\n' && c != '\r'
  }

  // StaticHandler::onRequest: /(static|uploads)/(.+), or the icon; None is 404.
  function MapPath(staticBase: string, uploadDest: string, path: string): Option<string> {
    if "/static/" < path && NoLineBreak(path[8..]) then Some(staticBase + "/" + path[8..])
    else if "/uploads/" < path && NoLineBreak(path[9..]) then Some(uploadDest + "/" + path[9..])
    else if path == "/favicon.ico" then Some(staticBase + "/favicon.ico")
    else None
  }

  // The paths that are served: a name of at least one character and no line
  // break under one of the two prefixes, and the icon.
  lemma MapPathMeans(staticBase: string, dest: string, name: string, other: string)
    requires name != ""
    ensures MapPath(staticBase, dest, "/static/" + name)
         == if NoLineBreak(name) then Some(staticBase + "/" + name) else None
    ensures MapPath(staticBase, dest, "/uploads/" + name) == if NoLineBreak(name) then Some(dest + "/" + name) else None
    ensures MapPath(staticBase, dest, "/favicon.ico") == Some(staticBase + "/favicon.ico")
    ensures other != "/favicon.ico" && !("/static/" < other) && !("/uploads/" < other) ==>
      MapPath(staticBase, dest, other) == None
    ensures NoLineBreak(name) <==> '\n' !in name && '\r' !in name
  {
    MapUpload(staticBase, dest, name);
    var path := "/static/" + name;
    assert path[8..] == name && path[1] == 's';
    assert "/favicon.ico"[1] == 'f';
  }

  lemma MapUpload(staticBase: string, dest: string, rest: string)
    requires rest != ""
    ensures MapPath(staticBase, dest, "/uploads/" + rest) == if NoLineBreak(rest) then Some(dest + "/" + rest) else None
  {
    var path := "/uploads/" + rest;
    assert path[9..] == rest;
    assert path[1] == 'u';
  }

  // Any URL path that decodes to the path shown is mapped back to the stored
  // file, with one slash doubled when uploadDest ends in a slash, exactly when
  // there is no line break in the name; otherwise it is not found.
  lemma ShownPathLeadsBack(staticBase: string, dest: string, uuid: string, filename: string, url: string)
    requires dest != ""
    requires PathCodec.WellEscaped(url) && PathCodec.Decode(url) == Ok(Shown(uuid, filename))
    ensures var rest := uuid + "_" + filename;
      MapPath(staticBase, dest, PathCodec.Decode(url).value) ==
        if !NoLineBreak(rest) then None
        else if EndsInSlash(dest) then Some(dest + "/" + rest)
        else Some(LocalName(dest, uuid, filename))
    ensures EndsInSlash(dest) ==> LocalName(dest, uuid, filename) == dest + (uuid + "_" + filename)
  {
    var rest := uuid + "_" + filename;
    MapUpload(staticBase, dest, rest);
    LocalNameIs(dest, uuid, filename);
  }

  // Such a URL: the prefix the server routes on, and the name percent-encoded.
  lemma ShownPathHasUrl(uuid: string, filename: string, name: seq<Octet>)
    requires name == uuid + "_" + filename
    ensures PathCodec.WellEscaped("/uploads/" + PathCodec.Encode(name))
    ensures PathCodec.Decode("/uploads/" + PathCodec.Encode(name)) == Ok(Shown(uuid, filename))
  {
    PathCodec.RoundTrip(name);
    PlainDecodes("/uploads/");
    PathCodec.DecodeConcat("/uploads/", PathCodec.Encode(name));
  }

  lemma {:induction false} PlainDecodes(s: string)
    requires '%' !in s && '+' !in s
    ensures PathCodec.WellEscaped(s) && PathCodec.Decode(s) == Ok(s)
  {
    if s != "" {
      assert s[0] in s;
      PlainDecodes(s[1..]);
      assert [s[0]] + s[1..] == s;
    }
  }
}
