/** The files router (`/api/files`). Every handler loads the whole document, looks
    records up by `id` and `userId`, and either answers or changes the record list
    and the blobs and writes the document back.

    List, download, preview and image only read, so they are functions of the
    state. Upload, delete and edit change the state step by step; each is a method
    on the `Store` and is specified by a `...Step` function that gives the state it
    leaves and its answer. */
module FilesRouter {
  import opened Replies
  import opened Store
  import opened FileTypes

  /** The directory multer stores uploads in. */
  const UploadsDir: string := "uploads/"

  /** The file multer hands to the upload handler: the client's file name and the
      received bytes. */
  datatype Incoming = Incoming(originalName: string, content: Blob)

  /** The multipart form of an upload: the `userId` and `username` fields and the
      `file` part, each possibly missing. */
  datatype UploadRequest = UploadRequest(userId: Option<string>, username: Option<string>, file: Option<Incoming>)

  /** The JSON body of an edit. `content` is `None` when it is missing or is not
      a string, which `fs.writeFile` rejects. */
  datatype EditRequest = EditRequest(userId: Option<string>, username: Option<string>, content: Option<string>)

  /** A download: the blob's bytes delivered under the file's original name. */
  datatype Delivery = Delivery(content: Blob, filename: string)

  /** A preview answer: a text file's contents, or the URL of an image. */
  datatype Preview = TextPreview(content: string) | ImagePreview(url: string)

  /** The record is the one asked for and belongs to the caller. */
  predicate Owned(f: FileRecord, fileId: string, userId: string) {
    f.id == fileId && f.userId == userId
  }

  /** `files.findIndex(f => f.id === fileId && f.userId === userId)`: the first
      matching position, or -1. */
  function FindIndex(files: seq<FileRecord>, fileId: string, userId: string): (i: int)
    ensures -1 <= i < |files|
    ensures 0 <= i ==> Owned(files[i], fileId, userId)
    ensures forall j :: 0 <= j < |files| && (i == -1 || j < i) ==> !Owned(files[j], fileId, userId)
  {
    if files == [] then -1
    else if Owned(files[0], fileId, userId) then 0
    else
      var k := FindIndex(files[1..], fileId, userId);
      if k == -1 then -1 else k + 1
  }

  /** `files.find(...)` with the same predicate: the first matching record. */
  function Find(files: seq<FileRecord>, fileId: string, userId: string): (r: Option<FileRecord>)
    ensures r.Some? ==> r.value in files && Owned(r.value, fileId, userId)
    ensures r.None? <==> forall f :: f in files ==> !Owned(f, fileId, userId)
  {
    var i := FindIndex(files, fileId, userId);
    if i < 0 then None else Some(files[i])
  }

  /** `files.filter(f => f.userId === userId)`: the server's filter by owner, as
      opposed to the page's filter by type, `Drive.OfType`. */
  function FilesOf(files: seq<FileRecord>, userId: string): (r: seq<FileRecord>)
    ensures |r| <= |files|
    ensures forall f :: f in r <==> f in files && f.userId == userId
  {
    if files == [] then []
    else (if files[0].userId == userId then [files[0]] else []) + FilesOf(files[1..], userId)
  }

  /** GET / : the caller's records, in stored order. */
  function List(st: State, userId: Option<string>): (r: Outcome<seq<FileRecord>>)
    ensures r.Failed? <==> !Present(userId)
    ensures r.Failed? ==> r.code == Unauthorized
    ensures r.Done? ==> forall f :: f in r.value <==> f in Document(st.dbFile).files && f.userId == userId.value
  {
    if !Present(userId) then Failed(Unauthorized)
    else Done(FilesOf(Document(st.dbFile).files, userId.value))
  }

  /** GET /download/:id : the blob of the caller's record, under its original name. */
  function DownloadFile(st: State, fileId: string, userId: Option<string>): (r: Outcome<Delivery>)
    ensures !Present(userId) ==> r == Failed(Unauthorized)
    ensures r.Failed? ==> r.code == Unauthorized || r.code == NotFound
    ensures r.Done? ==> exists f :: f in Document(st.dbFile).files && Owned(f, fileId, userId.value)
                                  && f.path in st.disk && r.value == Delivery(st.disk[f.path], f.originalName)
    // 404 when the caller has no such record or its blob is gone, otherwise delivered
    ensures Present(userId) ==>
              var found := Find(Document(st.dbFile).files, fileId, userId.value);
              && (found.None? ==> r == Failed(NotFound))
              && (found.Some? && found.value.path !in st.disk ==> r == Failed(NotFound))
              && (found.Some? && found.value.path in st.disk ==>
                    r == Done(Delivery(st.disk[found.value.path], found.value.originalName)))
  {
    if !Present(userId) then Failed(Unauthorized)
    else match Find(Document(st.dbFile).files, fileId, userId.value)
      case None => Failed(NotFound)
      case Some(f) =>
        // the record exists but its blob is gone from the uploads directory
        if f.path !in st.disk then Failed(NotFound)
        else Done(Delivery(st.disk[f.path], f.originalName))
  }

  /** The URL the preview of an image points to. */
  function ImageUrl(fileId: string, userId: string): (url: string)
    ensures |url| == 17 + |fileId| + 8 + |userId|
    ensures url[..17] == "/api/files/image/" && url[17..17 + |fileId|] == fileId
    ensures url[17 + |fileId|..|url| - |userId|] == "?userId=" && url[|url| - |userId|..] == userId
  {
    "/api/files/image/" + fileId + "?userId=" + userId
  }

  /** GET /preview/:id : a `.c` file's text, a `.jpg` file's image URL, and 400 for
      every other type. Reading a `.c` blob that is missing fails with 500. */
  function PreviewFile(st: State, fileId: string, userId: Option<string>): (r: Outcome<Preview>)
    ensures !Present(userId) ==> r == Failed(Unauthorized)
    ensures r.Done? ==> exists f :: f in Document(st.dbFile).files && Owned(f, fileId, userId.value) &&
                          ((f.fileType == TextType && f.path in st.disk && r.value == TextPreview(st.disk[f.path])) ||
                           (f.fileType == ImageType && r.value == ImagePreview(ImageUrl(fileId, userId.value))))
    ensures r.Failed? && r.code == BadRequest ==>
              exists f :: f in Document(st.dbFile).files && Owned(f, fileId, userId.value) &&
                          f.fileType != TextType && f.fileType != ImageType
    // the dispatch on the caller's record: none, `.c`, `.jpg` or any other type
    ensures Present(userId) ==>
              var found := Find(Document(st.dbFile).files, fileId, userId.value);
              && (found.None? ==> r == Failed(NotFound))
              && (found.Some? && found.value.fileType == TextType ==>
                    r == if found.value.path in st.disk then Done(TextPreview(st.disk[found.value.path])) else Failed(ServerError))
              && (found.Some? && found.value.fileType == ImageType ==> r == Done(ImagePreview(ImageUrl(fileId, userId.value))))
              && (found.Some? && found.value.fileType != TextType && found.value.fileType != ImageType ==> r == Failed(BadRequest))
  {
    if !Present(userId) then Failed(Unauthorized)
    else match Find(Document(st.dbFile).files, fileId, userId.value)
      case None => Failed(NotFound)
      case Some(f) =>
        if f.fileType == TextType then
          if f.path in st.disk then Done(TextPreview(st.disk[f.path])) else Failed(ServerError)
        else if f.fileType == ImageType then Done(ImagePreview(ImageUrl(fileId, userId.value)))
        else Failed(BadRequest)
  }

  /** GET /image/:id : the path of a `.jpg` blob, handed to `res.sendFile`. */
  function ImageFile(st: State, fileId: string, userId: Option<string>): (r: Outcome<Path>)
    ensures !Present(userId) ==> r == Failed(Unauthorized)
    ensures r.Done? ==> exists f :: f in Document(st.dbFile).files && Owned(f, fileId, userId.value) &&
                                  f.fileType == ImageType && r.value == f.path
    ensures r.Failed? ==> r.code == Unauthorized || r.code == NotFound || r.code == BadRequest
    ensures Present(userId) ==>
              var found := Find(Document(st.dbFile).files, fileId, userId.value);
              && (found.None? ==> r == Failed(NotFound))
              && (found.Some? && found.value.fileType == ImageType ==> r == Done(found.value.path))
              && (found.Some? && found.value.fileType != ImageType ==> r == Failed(BadRequest))
  {
    if !Present(userId) then Failed(Unauthorized)
    else match Find(Document(st.dbFile).files, fileId, userId.value)
      case None => Failed(NotFound)
      case Some(f) => if f.fileType != ImageType then Failed(BadRequest) else Done(f.path)
  }

  /** multer's file name `${Date.now()}-${originalname}`. */
  function StoredName(stamp: nat, originalName: string): (name: string)
    ensures var k := |name| - |originalName| - 1;
            && 0 < k && name[k] == '-' && name[k + 1..] == originalName
            && forall i :: 0 <= i < k ==> '0' <= name[i] <= '9'
  {
    var digits := DecimalString(stamp);
    var name := digits + "-" + originalName;
    assert name[|digits| + 1..] == originalName;
    name
  }

  /** Where multer writes an upload. */
  function UploadPath(stamp: nat, file: Incoming): (p: Path)
    ensures UploadsDir <= p && p[|UploadsDir|..] == StoredName(stamp, file.originalName)
  {
    UploadsDir + StoredName(stamp, file.originalName)
  }

  /** The record the upload handler builds; `clock` is the `Date.now()` that gives
      the id and `now` the time of both ISO timestamps. */
  function NewRecord(userId: string, username: string, file: Incoming, stamp: nat, clock: nat, now: int): (f: FileRecord)
    ensures f.path == UploadsDir + f.storedName && f.storedName == StoredName(stamp, f.originalName)
    ensures f.fileType == FileType(f.originalName) && f.originalName == file.originalName
    ensures f.size == |file.content| && f.id == DecimalString(clock) && f.userId == userId
    ensures f.uploadedBy == username && f.editedBy == username && f.createdAt == now && f.modifiedAt == now
  {
    FileRecord(
      id := DecimalString(clock),
      userId := userId,
      originalName := file.originalName,
      storedName := StoredName(stamp, file.originalName),
      path := UploadPath(stamp, file),
      size := |file.content|,
      fileType := FileType(file.originalName),
      uploadedBy := username,
      editedBy := username,
      createdAt := now,
      modifiedAt := now)
  }

  /** POST /upload, including multer's write of the blob before the handler runs.
      `writeOk` says whether writing the document succeeds. */
  function UploadStep(st: State, req: UploadRequest, stamp: nat, clock: nat, now: int, writeOk: bool): (r: Step<FileRecord>)
    // the authorization check comes first and takes back the blob multer wrote
    ensures !Present(req.userId) || !Present(req.username) ==> r.out == Failed(Unauthorized)
    ensures Present(req.userId) && Present(req.username) && req.file.None? ==> r == Step(st, Failed(BadRequest))
    ensures (!Present(req.userId) || !Present(req.username)) && req.file.None? ==> r == Step(st, Failed(Unauthorized))
    ensures r.out.Done? <==> Present(req.userId) && Present(req.username) && req.file.Some? && writeOk
    ensures Present(req.userId) && Present(req.username) && req.file.Some? && !writeOk ==> r.out == Failed(ServerError)
    // a failed upload leaves the document as it was and no blob at the upload's path
    ensures r.out.Failed? ==> r.state.dbFile == st.dbFile
    ensures r.out.Failed? && req.file.Some? ==> r.state.disk == st.disk - {UploadPath(stamp, req.file.value)}
    // a successful upload appends exactly one record, which names the stored blob
    ensures r.out.Done? ==>
              var rec := r.out.value;
              var before := Document(st.dbFile);
              && r.state.dbFile == Some(before.(files := before.files + [rec]))
              && r.state.disk == st.disk[rec.path := req.file.value.content]
              && rec.userId == req.userId.value
              && rec.originalName == req.file.value.originalName
              && rec.fileType == FileType(rec.originalName)
              && rec.size == |req.file.value.content|
              && rec.uploadedBy == req.username.value && rec.editedBy == req.username.value
              && rec.createdAt == now && rec.modifiedAt == now
              && rec.id == DecimalString(clock)
              && rec.storedName == StoredName(stamp, rec.originalName)
              && rec.path == UploadPath(stamp, req.file.value)
  {
    var disk := if req.file.Some? then st.disk[UploadPath(stamp, req.file.value) := req.file.value.content] else st.disk;
    if !Present(req.userId) || !Present(req.username) then
      Step(State(st.dbFile, if req.file.Some? then disk - {UploadPath(stamp, req.file.value)} else disk), Failed(Unauthorized))
    else if req.file.None? then
      Step(st, Failed(BadRequest))
    else
      var rec := NewRecord(req.userId.value, req.username.value, req.file.value, stamp, clock, now);
      var db := Document(st.dbFile);
      if writeOk then
        Step(State(Some(db.(files := db.files + [rec])), disk), Done(rec))
      else
        // the catch block removes the blob again
        Step(State(st.dbFile, disk - {rec.path}), Failed(ServerError))
  }

  /** DELETE /:id : removes the caller's first matching record and its blob. A
      failed unlink is ignored; a failed document write leaves the record in place
      although its blob is gone. */
  function DeleteStep(st: State, fileId: string, userId: Option<string>, writeOk: bool): (r: Step<()>)
    ensures !Present(userId) ==> r == Step(st, Failed(Unauthorized))
    ensures Present(userId) && Find(Document(st.dbFile).files, fileId, userId.value).None? ==> r == Step(st, Failed(NotFound))
    ensures r.out.Done? <==> Present(userId) && writeOk && Find(Document(st.dbFile).files, fileId, userId.value).Some?
    ensures r.out.Done? ==>
              var files := Document(st.dbFile).files;
              var i := FindIndex(files, fileId, userId.value);
              var files' := Document(r.state.dbFile).files;
              && 0 <= i < |files|
              && files' == files[..i] + files[i + 1..]
              && multiset(files') + multiset{files[i]} == multiset(files)
              && Document(r.state.dbFile).users == Document(st.dbFile).users
              && r.state.disk == st.disk - {files[i].path}
    ensures r.out.Failed? ==> r.state.dbFile == st.dbFile
    // a failed write answers 500 after the blob is already unlinked
    ensures Present(userId) && !writeOk && Find(Document(st.dbFile).files, fileId, userId.value).Some? ==>
              r.out == Failed(ServerError)
    // once the record is found, what happens is `DeleteAt` at its position
    ensures Present(userId) ==>
              var i := FindIndex(Document(st.dbFile).files, fileId, userId.value);
              0 <= i ==> r == DeleteAt(st, i, writeOk)
  {
    if !Present(userId) then Step(st, Failed(Unauthorized))
    else
      var db := Document(st.dbFile);
      var i := FindIndex(db.files, fileId, userId.value);
      assert Find(db.files, fileId, userId.value) == if i == -1 then None else Some(db.files[i]);
      if i == -1 then Step(st, Failed(NotFound))
      else DeleteAt(st, i, writeOk)
  }

  /** The part of a delete after the record is found at `i`: its blob is unlinked
      first, then the record is spliced out and the document written. */
  function DeleteAt(st: State, i: nat, writeOk: bool): (r: Step<()>)
    requires i < |Document(st.dbFile).files|
    ensures var files := Document(st.dbFile).files;
            && r.state.disk == st.disk - {files[i].path}
            && (r.out.Done? <==> writeOk)
            && (!writeOk ==> r.state.dbFile == st.dbFile && r.out == Failed(ServerError))
            && (writeOk ==>
                  var files' := Document(r.state.dbFile).files;
                  && files' == files[..i] + files[i + 1..]
                  && multiset(files') + multiset{files[i]} == multiset(files)
                  && Document(r.state.dbFile).users == Document(st.dbFile).users)
  {
    var db := Document(st.dbFile);
    var disk := st.disk - {db.files[i].path};
    if writeOk then
      SpliceMultiset(db.files, i);
      Step(State(Some(db.(files := db.files[..i] + db.files[i + 1..])), disk), Done(()))
    else Step(State(st.dbFile, disk), Failed(ServerError))
  }

  /** Splicing out one element removes exactly one occurrence of it. */
  lemma SpliceMultiset(files: seq<FileRecord>, i: nat)
    requires i < |files|
    ensures multiset(files[..i] + files[i + 1..]) + multiset{files[i]} == multiset(files)
  {
    assert files == files[..i] + [files[i]] + files[i + 1..];
  }

  /** The record after an edit by `username` at time `now`. */
  function Edited(f: FileRecord, username: string, now: int): (e: FileRecord)
    ensures e.modifiedAt == now && e.editedBy == username
    ensures e.(modifiedAt := f.modifiedAt, editedBy := f.editedBy) == f
  {
    f.(modifiedAt := now, editedBy := username)
  }

  /** PUT /edit/:id : rewrites a `.c` blob and stamps the record. A non-`.c` file is
      refused before its blob is touched. A failed document write leaves the new
      contents on disk and the record as it was. */
  function EditStep(st: State, fileId: string, req: EditRequest, now: int, writeOk: bool): (r: Step<()>)
    ensures !Present(req.userId) || !Present(req.username) ==> r == Step(st, Failed(Unauthorized))
    ensures Present(req.userId) && Present(req.username) ==>
              var found := Find(Document(st.dbFile).files, fileId, req.userId.value);
              && (found.None? ==> r == Step(st, Failed(NotFound)))
              && (found.Some? && found.value.fileType != TextType ==> r == Step(st, Failed(BadRequest)))
              // `fs.writeFile` rejects a missing content before anything is written
              && (found.Some? && found.value.fileType == TextType && req.content.None? ==> r == Step(st, Failed(ServerError)))
              // a failed document write keeps the record but not the old contents
              && (found.Some? && found.value.fileType == TextType && req.content.Some? && !writeOk ==>
                    r == Step(State(st.dbFile, st.disk[found.value.path := req.content.value]), Failed(ServerError)))
    ensures r.out.Done? <==>
              && Present(req.userId) && Present(req.username) && req.content.Some? && writeOk
              && var found := Find(Document(st.dbFile).files, fileId, req.userId.value);
                 found.Some? && found.value.fileType == TextType
    ensures r.out.Failed? ==> r.state.dbFile == st.dbFile
    ensures r.out.Done? ==>
              var files := Document(st.dbFile).files;
              var i := FindIndex(files, fileId, req.userId.value);
              var files' := Document(r.state.dbFile).files;
              && 0 <= i < |files| && |files'| == |files|
              && files[i].fileType == TextType && req.content.Some?
              && (forall j :: 0 <= j < |files| && j != i ==> files'[j] == files[j])
              && files'[i] == files[i].(modifiedAt := now, editedBy := req.username.value)
              && Document(r.state.dbFile).users == Document(st.dbFile).users
              && r.state.disk == st.disk[files[i].path := req.content.value]
  {
    if !Present(req.userId) || !Present(req.username) then Step(st, Failed(Unauthorized))
    else
      var db := Document(st.dbFile);
      var i := FindIndex(db.files, fileId, req.userId.value);
      if i == -1 then Step(st, Failed(NotFound))
      else if db.files[i].fileType != TextType then Step(st, Failed(BadRequest))
      else if req.content.None? then Step(st, Failed(ServerError))
      else
        var f := db.files[i];
        var disk := st.disk[f.path := req.content.value];
        if writeOk then
          Step(State(Some(db.(files := db.files[i := Edited(f, req.username.value, now)])), disk), Done(()))
        else Step(State(st.dbFile, disk), Failed(ServerError))
  }

  /** The upload handler, as it runs against the server's store. */
  method Upload(s: Store, req: UploadRequest, stamp: nat, clock: nat, now: int, writeOk: bool) returns (r: Outcome<FileRecord>)
    modifies s
    ensures Step(s.Snapshot(), r) == UploadStep(old(s.Snapshot()), req, stamp, clock, now, writeOk)
  {
    var path: Path := "";
    if req.file.Some? {
      // multer's disk storage saves the upload before the handler is entered
      path := UploadPath(stamp, req.file.value);
      s.WriteFile(path, req.file.value.content);
    }
    if !Present(req.userId) || !Present(req.username) {
      if req.file.Some? {
        var _ := s.Unlink(path);
      }
      return Failed(Unauthorized);
    }
    if req.file.None? {
      return Failed(BadRequest);
    }
    var db := Document(s.dbFile);
    var record := NewRecord(req.userId.value, req.username.value, req.file.value, stamp, clock, now);
    db := db.(files := db.files + [record]);
    var written := s.WriteDB(db, writeOk);
    if !written {
      var _ := s.Unlink(path);
      return Failed(ServerError);
    }
    r := Done(record);
  }

  /** The delete handler: unlink the blob, then splice the record out. */
  method Delete(s: Store, fileId: string, userId: Option<string>, writeOk: bool) returns (r: Outcome<()>)
    modifies s
    ensures Step(s.Snapshot(), r) == DeleteStep(old(s.Snapshot()), fileId, userId, writeOk)
  {
    if !Present(userId) {
      return Failed(Unauthorized);
    }
    var db := Document(s.dbFile);
    var fileIndex := FindIndex(db.files, fileId, userId.value);
    if fileIndex == -1 {
      return Failed(NotFound);
    }
    var file := db.files[fileIndex];
    // an unlink that fails is only logged
    var _ := s.Unlink(file.path);
    db := db.(files := db.files[..fileIndex] + db.files[fileIndex + 1..]);
    var written := s.WriteDB(db, writeOk);
    if !written {
      return Failed(ServerError);
    }
    r := Done(());
  }

  /** The edit handler: rewrite the blob, then stamp the found record in place. */
  method Edit(s: Store, fileId: string, req: EditRequest, now: int, writeOk: bool) returns (r: Outcome<()>)
    modifies s
    ensures Step(s.Snapshot(), r) == EditStep(old(s.Snapshot()), fileId, req, now, writeOk)
  {
    if !Present(req.userId) || !Present(req.username) {
      return Failed(Unauthorized);
    }
    var db := Document(s.dbFile);
    var i := FindIndex(db.files, fileId, req.userId.value);
    if i == -1 {
      return Failed(NotFound);
    }
    var file := db.files[i];
    if file.fileType != TextType {
      return Failed(BadRequest);
    }
    if req.content.None? {
      return Failed(ServerError);
    }
    s.WriteFile(file.path, req.content.value);
    file := file.(modifiedAt := now);
    file := file.(editedBy := req.username.value);
    db := db.(files := db.files[i := file]);
    var written := s.WriteDB(db, writeOk);
    if !written {
      return Failed(ServerError);
    }
    r := Done(());
  }
}
