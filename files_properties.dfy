/** What the files router promises across requests: a download after an upload
    returns the uploaded bytes, a preview after an edit returns the new text, a
    deleted file is gone for everyone, another user's file is indistinguishable
    from a missing one, and the listing keeps the stored order. */
module FilesProperties {
  import opened Replies
  import opened Store
  import opened FileTypes
  import opened FilesRouter

  /** Filtering by owner distributes over concatenation, so it keeps the stored order. */
  lemma {:induction false} FilesOfConcat(a: seq<FileRecord>, b: seq<FileRecord>, userId: string)
    ensures FilesOf(a + b, userId) == FilesOf(a, userId) + FilesOf(b, userId)
  {
    if a != [] {
      assert (a + b)[0] == a[0];
      assert (a + b)[1..] == a[1..] + b;
      FilesOfConcat(a[1..], b, userId);
    } else {
      assert a + b == b;
    }
  }

  /** Filtering a list with one record appended. */
  lemma FilesOfAppend(files: seq<FileRecord>, rec: FileRecord, userId: string)
    ensures FilesOf(files + [rec], userId) == FilesOf(files, userId) + (if rec.userId == userId then [rec] else [])
  {
    FilesOfConcat(files, [rec], userId);
    assert [rec][1..] == [];
  }

  /** After a successful upload the uploader's listing is the old listing with the
      new record at the end. */
  lemma ListAfterUpload(st: State, req: UploadRequest, stamp: nat, clock: nat, now: int)
    requires UploadStep(st, req, stamp, clock, now, true).out.Done?
    ensures var r := UploadStep(st, req, stamp, clock, now, true);
            List(r.state, req.userId) == Done(List(st, req.userId).value + [r.out.value])
  {
    var r := UploadStep(st, req, stamp, clock, now, true);
    var files := Document(st.dbFile).files;
    var rec := r.out.value;
    assert Document(r.state.dbFile).files == files + [rec];
    FilesOfAppend(files, rec, req.userId.value);
  }

  /** An upload does not change any other user's listing. */
  lemma OthersListAfterUpload(st: State, req: UploadRequest, stamp: nat, clock: nat, now: int, other: string)
    requires UploadStep(st, req, stamp, clock, now, true).out.Done?
    requires other != req.userId.value
    ensures List(UploadStep(st, req, stamp, clock, now, true).state, Some(other)) == List(st, Some(other))
  {
    var r := UploadStep(st, req, stamp, clock, now, true);
    var files := Document(st.dbFile).files;
    var rec := r.out.value;
    assert Document(r.state.dbFile).files == files + [rec];
    FilesOfAppend(files, rec, other);
    assert FilesOf(files, other) + [] == FilesOf(files, other);
  }

  /** Appending a record does not change an earlier match and is found when there
      was none. */
  lemma {:induction false} FindIndexAppend(files: seq<FileRecord>, rec: FileRecord, fileId: string, userId: string)
    ensures FindIndex(files, fileId, userId) >= 0 ==>
              FindIndex(files + [rec], fileId, userId) == FindIndex(files, fileId, userId)
    ensures FindIndex(files, fileId, userId) == -1 && Owned(rec, fileId, userId) ==>
              FindIndex(files + [rec], fileId, userId) == |files|
  {
    if files != [] {
      assert (files + [rec])[1..] == files[1..] + [rec];
      FindIndexAppend(files[1..], rec, fileId, userId);
    }
  }

  /** Downloading a freshly uploaded file returns the uploaded bytes under the
      uploaded name, provided no earlier record of the uploader has the same id. */
  lemma DownloadAfterUpload(st: State, req: UploadRequest, stamp: nat, clock: nat, now: int)
    requires UploadStep(st, req, stamp, clock, now, true).out.Done?
    requires forall f :: f in Document(st.dbFile).files ==> !Owned(f, DecimalString(clock), req.userId.value)
    ensures var r := UploadStep(st, req, stamp, clock, now, true);
            DownloadFile(r.state, r.out.value.id, req.userId) ==
              Done(Delivery(req.file.value.content, req.file.value.originalName))
  {
    var r := UploadStep(st, req, stamp, clock, now, true);
    FindAfterUpload(st, req, stamp, clock, now);
    assert r.state.disk[r.out.value.path] == req.file.value.content;
  }

  /** After a successful upload the new record is what a lookup of its id by the
      uploader finds, when no earlier record of the uploader has that id. */
  lemma FindAfterUpload(st: State, req: UploadRequest, stamp: nat, clock: nat, now: int)
    requires UploadStep(st, req, stamp, clock, now, true).out.Done?
    requires forall f :: f in Document(st.dbFile).files ==> !Owned(f, DecimalString(clock), req.userId.value)
    ensures var r := UploadStep(st, req, stamp, clock, now, true);
            Find(Document(r.state.dbFile).files, r.out.value.id, req.userId.value) == Some(r.out.value)
  {
    var r := UploadStep(st, req, stamp, clock, now, true);
    var files := Document(st.dbFile).files;
    var rec := r.out.value;
    assert rec.id == DecimalString(clock);
    assert Document(r.state.dbFile).files == files + [rec];
    FindIndexAppend(files, rec, rec.id, req.userId.value);
    assert FindIndex(files, rec.id, req.userId.value) == -1;
    assert (files + [rec])[|files|] == rec;
  }

  /** Previewing a freshly uploaded `.c` file returns its text. */
  lemma PreviewAfterUpload(st: State, req: UploadRequest, stamp: nat, clock: nat, now: int)
    requires UploadStep(st, req, stamp, clock, now, true).out.Done?
    requires FileType(req.file.value.originalName) == TextType
    requires forall f :: f in Document(st.dbFile).files ==> !Owned(f, DecimalString(clock), req.userId.value)
    ensures var r := UploadStep(st, req, stamp, clock, now, true);
            PreviewFile(r.state, r.out.value.id, req.userId) == Done(TextPreview(req.file.value.content))
  {
    var r := UploadStep(st, req, stamp, clock, now, true);
    FindAfterUpload(st, req, stamp, clock, now);
    assert r.state.disk[r.out.value.path] == req.file.value.content;
  }

  /** Replacing the first match by a record with the same id and owner keeps it the
      first match. */
  lemma FindIndexAfterUpdate(files: seq<FileRecord>, fileId: string, userId: string, f: FileRecord)
    requires 0 <= FindIndex(files, fileId, userId)
    requires Owned(f, fileId, userId)
    ensures FindIndex(files[FindIndex(files, fileId, userId) := f], fileId, userId) == FindIndex(files, fileId, userId)
  {
    var i := FindIndex(files, fileId, userId);
    var files' := files[i := f];
    FirstMatchIsFindIndex(files', fileId, userId, i);
  }

  /** A position that matches and has no match before it is what `FindIndex` returns. */
  lemma {:induction false} FirstMatchIsFindIndex(files: seq<FileRecord>, fileId: string, userId: string, i: nat)
    requires i < |files| && Owned(files[i], fileId, userId)
    requires forall j :: 0 <= j < i ==> !Owned(files[j], fileId, userId)
    ensures FindIndex(files, fileId, userId) == i
  {
    if i > 0 {
      FirstMatchIsFindIndex(files[1..], fileId, userId, i - 1);
    }
  }

  /** After a successful edit, a preview returns exactly the new text and a
      download the new bytes under the unchanged original name. */
  lemma PreviewAfterEdit(st: State, fileId: string, req: EditRequest, now: int)
    requires EditStep(st, fileId, req, now, true).out.Done?
    ensures var st' := EditStep(st, fileId, req, now, true).state;
            && PreviewFile(st', fileId, req.userId) == Done(TextPreview(req.content.value))
            && DownloadFile(st', fileId, req.userId).Done?
            && DownloadFile(st', fileId, req.userId).value.content == req.content.value
  {
    var files := Document(st.dbFile).files;
    var i := FindIndex(files, fileId, req.userId.value);
    FindIndexAfterUpdate(files, fileId, req.userId.value, Edited(files[i], req.username.value, now));
  }

  /** `Find` takes the first record when it matches and searches the rest otherwise. */
  lemma FindCons(files: seq<FileRecord>, fileId: string, userId: string)
    requires files != []
    ensures Find(files, fileId, userId) ==
              if Owned(files[0], fileId, userId) then Some(files[0]) else Find(files[1..], fileId, userId)
  {
  }

  /** Looking a file up among all records or among the caller's own records gives
      the same answer. */
  lemma {:induction false} FindSeesOnlyOwner(files: seq<FileRecord>, fileId: string, userId: string)
    ensures Find(files, fileId, userId) == Find(FilesOf(files, userId), fileId, userId)
  {
    if files != [] {
      FindCons(files, fileId, userId);
      FindSeesOnlyOwner(files[1..], fileId, userId);
      var rest := FilesOf(files[1..], userId);
      if files[0].userId == userId {
        var own := FilesOf(files, userId);
        assert own == [files[0]] + rest;
        assert own[0] == files[0] && own[1..] == rest;
        FindCons(own, fileId, userId);
      } else {
        assert FilesOf(files, userId) == rest;
      }
    }
  }

  /** `FindIndex` and `Find` agree on the record they pick. */
  lemma FindAtFindIndex(files: seq<FileRecord>, fileId: string, userId: string)
    ensures var i := FindIndex(files, fileId, userId);
            Find(files, fileId, userId) == if i < 0 then None else Some(files[i])
  {
  }

  /** The state as one user can see it: the same blobs, and only their own records. */
  function OwnView(st: State, userId: string): (v: State)
    ensures forall f :: f in Document(v.dbFile).files <==> f in Document(st.dbFile).files && f.userId == userId
  {
    var db := Document(st.dbFile);
    State(Some(db.(files := FilesOf(db.files, userId))), st.disk)
  }

  /** A download answers a caller exactly as it would if no other user had any
      records: ownership is part of the lookup. */
  lemma DownloadSeesOnlyOwnRecords(st: State, fileId: string, userId: string)
    ensures DownloadFile(st, fileId, Some(userId)) == DownloadFile(OwnView(st, userId), fileId, Some(userId))
  {
    var files := Document(st.dbFile).files;
    var v := OwnView(st, userId);
    assert Document(v.dbFile).files == FilesOf(files, userId);
    FindSeesOnlyOwner(files, fileId, userId);
  }

  /** A preview answers a caller exactly as it would if no other user had any
      records: ownership is part of the lookup. */
  lemma PreviewSeesOnlyOwnRecords(st: State, fileId: string, userId: string)
    ensures PreviewFile(st, fileId, Some(userId)) == PreviewFile(OwnView(st, userId), fileId, Some(userId))
  {
    var files := Document(st.dbFile).files;
    var v := OwnView(st, userId);
    assert Document(v.dbFile).files == FilesOf(files, userId);
    FindSeesOnlyOwner(files, fileId, userId);
    assert v.disk == st.disk;
  }

  /** An image request answers a caller exactly as it would if no other user had any
      records: ownership is part of the lookup. */
  lemma ImageSeesOnlyOwnRecords(st: State, fileId: string, userId: string)
    ensures ImageFile(st, fileId, Some(userId)) == ImageFile(OwnView(st, userId), fileId, Some(userId))
  {
    var files := Document(st.dbFile).files;
    var v := OwnView(st, userId);
    assert Document(v.dbFile).files == FilesOf(files, userId);
    FindSeesOnlyOwner(files, fileId, userId);
  }

  /** An edit gives a caller the same answer, and writes the same blob, as it would
      if no other user had any records. */
  lemma EditSeesOnlyOwnRecords(st: State, fileId: string, userId: string, req: EditRequest, now: int, writeOk: bool)
    requires req.userId == Some(userId)
    ensures var v := OwnView(st, userId);
            && EditStep(st, fileId, req, now, writeOk).out == EditStep(v, fileId, req, now, writeOk).out
            && EditStep(st, fileId, req, now, writeOk).state.disk == EditStep(v, fileId, req, now, writeOk).state.disk
  {
    var files := Document(st.dbFile).files;
    var own := Document(OwnView(st, userId).dbFile).files;
    FindSeesOnlyOwner(files, fileId, userId);
    FindAtFindIndex(files, fileId, userId);
    FindAtFindIndex(own, fileId, userId);
  }

  /** A delete gives a caller the same answer, and unlinks the same blob, as it would
      if no other user had any records. */
  lemma DeleteSeesOnlyOwnRecords(st: State, fileId: string, userId: string, writeOk: bool)
    ensures var v := OwnView(st, userId);
            && DeleteStep(st, fileId, Some(userId), writeOk).out == DeleteStep(v, fileId, Some(userId), writeOk).out
            && DeleteStep(st, fileId, Some(userId), writeOk).state.disk == DeleteStep(v, fileId, Some(userId), writeOk).state.disk
  {
    var files := Document(st.dbFile).files;
    var own := Document(OwnView(st, userId).dbFile).files;
    FindSeesOnlyOwner(files, fileId, userId);
    FindAtFindIndex(files, fileId, userId);
    FindAtFindIndex(own, fileId, userId);
  }

  /** Edit and delete give a caller the same answer, and do the same to the blobs,
      as they would if no other user had any records. */
  lemma WritersSeeOnlyOwnRecords(st: State, fileId: string, userId: string, req: EditRequest, now: int, writeOk: bool)
    requires req.userId == Some(userId)
    ensures var v := OwnView(st, userId);
            && EditStep(st, fileId, req, now, writeOk).out == EditStep(v, fileId, req, now, writeOk).out
            && DeleteStep(st, fileId, Some(userId), writeOk).out == DeleteStep(v, fileId, Some(userId), writeOk).out
            && EditStep(st, fileId, req, now, writeOk).state.disk == EditStep(v, fileId, req, now, writeOk).state.disk
            && DeleteStep(st, fileId, Some(userId), writeOk).state.disk == DeleteStep(v, fileId, Some(userId), writeOk).state.disk
  {
    EditSeesOnlyOwnRecords(st, fileId, userId, req, now, writeOk);
    DeleteSeesOnlyOwnRecords(st, fileId, userId, writeOk);
  }

  /** A record that belongs to someone else is indistinguishable from an absent
      one: every per-file handler answers 404 and changes nothing. */
  lemma ForeignFileIsNotFound(st: State, fileId: string, userId: string, req: EditRequest, now: int, writeOk: bool)
    requires userId != ""
    requires forall f :: f in Document(st.dbFile).files && f.id == fileId ==> f.userId != userId
    requires req.userId == Some(userId) && Present(req.username)
    ensures DownloadFile(st, fileId, Some(userId)) == Failed(NotFound)
    ensures PreviewFile(st, fileId, Some(userId)) == Failed(NotFound)
    ensures ImageFile(st, fileId, Some(userId)) == Failed(NotFound)
    ensures EditStep(st, fileId, req, now, writeOk) == Step(st, Failed(NotFound))
    ensures DeleteStep(st, fileId, Some(userId), writeOk) == Step(st, Failed(NotFound))
  {
  }

  /** A delete whose document write fails answers 500 and keeps the record, but
      the blob is already gone: the record is left pointing at nothing. */
  lemma DeleteWithFailedWriteLosesBlob(st: State, fileId: string, userId: string)
    requires userId != ""
    requires Find(Document(st.dbFile).files, fileId, userId).Some?
    ensures var f := Find(Document(st.dbFile).files, fileId, userId).value;
            var r := DeleteStep(st, fileId, Some(userId), false);
            && r.out == Failed(ServerError)
            && r.state.dbFile == st.dbFile
            && r.state.disk == st.disk - {f.path}
  {
    FindAtFindIndex(Document(st.dbFile).files, fileId, userId);
  }

  /** No two records share an id. */
  ghost predicate UniqueIds(files: seq<FileRecord>) {
    forall j, k :: 0 <= j < |files| && 0 <= k < |files| && files[j].id == files[k].id ==> j == k
  }

  /** When ids are unique, a deleted file is not found for any user afterwards, its
      original owner included, and its blob is gone. */
  lemma DeleteMakesFileUnreachable(st: State, fileId: string, userId: string, anyone: string)
    requires UniqueIds(Document(st.dbFile).files)
    requires DeleteStep(st, fileId, Some(userId), true).out.Done?
    ensures var st' := DeleteStep(st, fileId, Some(userId), true).state;
            && Find(Document(st'.dbFile).files, fileId, anyone).None?
            && (anyone != "" ==> DownloadFile(st', fileId, Some(anyone)) == Failed(NotFound))
            && (anyone != "" ==> PreviewFile(st', fileId, Some(anyone)) == Failed(NotFound))
  {
    var files := Document(st.dbFile).files;
    var i := FindIndex(files, fileId, userId);
    var st' := DeleteStep(st, fileId, Some(userId), true).state;
    assert Document(st'.dbFile).files == files[..i] + files[i + 1..];
    SpliceDropsId(files, i);
    assert files[i].id == fileId;
  }

  /** Removing the record at `i` from a list with unique ids leaves no record with
      its id. */
  lemma SpliceDropsId(files: seq<FileRecord>, i: nat)
    requires UniqueIds(files) && i < |files|
    ensures forall f :: f in files[..i] + files[i + 1..] ==> f.id != files[i].id
  {
    var rest := files[..i] + files[i + 1..];
    forall f | f in rest
      ensures f.id != files[i].id
    {
      var k :| 0 <= k < |rest| && rest[k] == f;
      if k < i {
        assert f == files[k];
      } else {
        assert f == files[k + 1];
      }
    }
  }

  /** The invariant every handler keeps on the stored records: a record's type is
      derived from its original name and its path from its stored name. */
  predicate WellFormed(db: Db) {
    forall f :: f in db.files ==>
      f.fileType == FileType(f.originalName) && f.path == UploadsDir + f.storedName
  }

  /** multer's stored names identify the upload: different clock readings or
      different original names give different names. */
  lemma StoredNameInjective(a: nat, b: nat, nameA: string, nameB: string)
    ensures StoredName(a, nameA) == StoredName(b, nameB) ==> a == b && nameA == nameB
  {
    var da, db := DecimalString(a), DecimalString(b);
    var x, y := StoredName(a, nameA), StoredName(b, nameB);
    if x == y {
      assert x == da + "-" + nameA && y == db + "-" + nameB;
      assert |da| == |db|;
      assert da == x[..|da|] && db == y[..|db|];
      DecimalStringInjective(a, b);
      assert nameA == x[|da| + 1..] && nameB == y[|db| + 1..];
    }
  }

  /** In a well-formed document the server previews the caller's `<stem>.C` as its
      text and `<stem>.JPG` as an image, whatever the case of the name. */
  lemma UpperCaseNamesArePreviewed(st: State, fileId: string, userId: string, stem: string)
    requires WellFormed(Document(st.dbFile))
    requires userId != ""
    requires Find(Document(st.dbFile).files, fileId, userId).Some?
    requires stem != [] && stem != "."
    requires forall i :: 0 <= i < |stem| ==> stem[i] != '/'
    ensures var f := Find(Document(st.dbFile).files, fileId, userId).value;
            var r := PreviewFile(st, fileId, Some(userId));
            && (f.originalName == stem + "." + "C" && f.path in st.disk ==> r == Done(TextPreview(st.disk[f.path])))
            && (f.originalName == stem + "." + "JPG" ==> r == Done(ImagePreview(ImageUrl(fileId, userId))))
  {
    UpperCaseCIsText(stem);
    UpperCaseJpgIsImage(stem);
  }

  lemma UploadKeepsWellFormed(st: State, req: UploadRequest, stamp: nat, clock: nat, now: int, writeOk: bool)
    requires WellFormed(Document(st.dbFile))
    ensures WellFormed(Document(UploadStep(st, req, stamp, clock, now, writeOk).state.dbFile))
  {
  }

  lemma EditKeepsWellFormed(st: State, fileId: string, req: EditRequest, now: int, writeOk: bool)
    requires WellFormed(Document(st.dbFile))
    ensures WellFormed(Document(EditStep(st, fileId, req, now, writeOk).state.dbFile))
  {
    var r := EditStep(st, fileId, req, now, writeOk);
    if r.out.Done? {
      var files := Document(st.dbFile).files;
      var files' := Document(r.state.dbFile).files;
      var i := FindIndex(files, fileId, req.userId.value);
      forall f | f in files'
        ensures f.fileType == FileType(f.originalName) && f.path == UploadsDir + f.storedName
      {
        var k :| 0 <= k < |files'| && files'[k] == f;
        assert files[k] in files;
      }
    }
  }

  lemma DeleteKeepsWellFormed(st: State, fileId: string, userId: Option<string>, writeOk: bool)
    requires WellFormed(Document(st.dbFile))
    ensures WellFormed(Document(DeleteStep(st, fileId, userId, writeOk).state.dbFile))
  {
    var r := DeleteStep(st, fileId, userId, writeOk);
    if r.out.Done? {
      var files := Document(st.dbFile).files;
      var files' := Document(r.state.dbFile).files;
      forall f | f in files'
        ensures f in files
      {
        assert f in multiset(files');
      }
    }
  }
}
