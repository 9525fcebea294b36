/** The file list page (`client/drive.js`): the loaded list of the user's records,
    the type filter and the creation-time sort, the size unit and the actions
    offered per row, and what the preview and edit dialogs show for a server
    answer. DOM rendering, dates and the decimal digits of sizes are left out. */
module Drive {
  import opened Replies
  import opened Store
  import opened FileTypes
  import FilesRouter

  /** The filter value that shows every file. */
  const AllTypes: string := "all"
  /** The sort value for newest first; any other value sorts oldest first. */
  const Descending: string := "desc"

  /** `files.filter(f => f.type === fileType)`: the page's filter by type, as
      opposed to the server's filter by owner, `FilesRouter.FilesOf`. */
  function OfType(files: seq<FileRecord>, fileType: string): (r: seq<FileRecord>)
    ensures |r| <= |files|
    ensures forall f :: f in r <==> f in files && f.fileType == fileType
  {
    if files == [] then []
    else (if files[0].fileType == fileType then [files[0]] else []) + OfType(files[1..], fileType)
  }

  /** `filterFiles`: the whole list for "all", otherwise the files of that type. */
  function FilterFiles(files: seq<FileRecord>, filter: string): (r: seq<FileRecord>)
    ensures filter == AllTypes ==> r == files
    ensures filter != AllTypes ==> forall f :: f in r <==> f in files && f.fileType == filter
  {
    if filter == AllTypes then files else OfType(files, filter)
  }

  /** Filtering by type distributes over concatenation, so it keeps the order. */
  lemma {:induction false} OfTypeConcat(a: seq<FileRecord>, b: seq<FileRecord>, fileType: string)
    ensures OfType(a + b, fileType) == OfType(a, fileType) + OfType(b, fileType)
  {
    if a != [] {
      assert (a + b)[0] == a[0];
      assert (a + b)[1..] == a[1..] + b;
      OfTypeConcat(a[1..], b, fileType);
    } else {
      assert a + b == b;
    }
  }

  /** Filtering twice by the same value is filtering once. */
  lemma {:induction false} FilterIdempotent(files: seq<FileRecord>, filter: string)
    ensures FilterFiles(FilterFiles(files, filter), filter) == FilterFiles(files, filter)
  {
    if filter != AllTypes && files != [] {
      FilterIdempotent(files[1..], filter);
      var head := if files[0].fileType == filter then [files[0]] else [];
      OfTypeConcat(head, OfType(files[1..], filter), filter);
      if head != [] {
        assert head[1..] == [];
      }
    }
  }

  /** The comparator passed to `sort` in `sortFiles`: positive when `b` must come
      before `a`. */
  function Compare(a: FileRecord, b: FileRecord, sort: string): int {
    if sort == Descending then b.createdAt - a.createdAt else a.createdAt - b.createdAt
  }

  /** `a` may stay before `b`: the comparator does not ask for a swap. Of any two
      records, at least one may precede the other. */
  function InOrder(a: FileRecord, b: FileRecord, sort: string): (r: bool)
    ensures r <==> Compare(a, b, sort) <= 0
    ensures !r ==> Compare(b, a, sort) < 0
  {
    if sort == Descending then a.createdAt >= b.createdAt else a.createdAt <= b.createdAt
  }

  predicate Sorted(s: seq<FileRecord>, sort: string) {
    forall i, j :: 0 <= i < j < |s| ==> InOrder(s[i], s[j], sort)
  }

  /** Appending an element that every element may precede keeps a list sorted. */
  lemma SortedSnoc(s: seq<FileRecord>, x: FileRecord, sort: string)
    requires Sorted(s, sort)
    requires forall e :: e in s ==> InOrder(e, x, sort)
    ensures Sorted(s + [x], sort)
  {
    forall i, j | 0 <= i < j < |s| + 1
      ensures InOrder((s + [x])[i], (s + [x])[j], sort)
    {
      assert (s + [x])[i] == s[i];
      if j == |s| {
        assert s[i] in s;
      }
    }
  }

  /** Inserts `x` into a sorted list after every element it does not precede. */
  function Insert(x: FileRecord, s: seq<FileRecord>, sort: string): (r: seq<FileRecord>)
    requires Sorted(s, sort)
    ensures Sorted(r, sort)
    ensures multiset(r) == multiset(s) + multiset{x}
  {
    if s == [] then [x]
    else
      var last := s[|s| - 1];
      var init := s[..|s| - 1];
      assert s == init + [last];
      if InOrder(last, x, sort) then
        SortedUpTo(s, x, sort);
        SortedSnoc(s, x, sort);
        s + [x]
      else
        var front := Insert(x, init, sort);
        InsertedUpTo(s, x, front, sort);
        SortedSnoc(front, last, sort);
        front + [last]
  }

  /** Every element of a sorted list may precede what its last element may precede. */
  lemma SortedUpTo(s: seq<FileRecord>, x: FileRecord, sort: string)
    requires Sorted(s, sort) && s != [] && InOrder(s[|s| - 1], x, sort)
    ensures forall e :: e in s ==> InOrder(e, x, sort)
  {
    forall e | e in s
      ensures InOrder(e, x, sort)
    {
      var k :| 0 <= k < |s| && s[k] == e;
    }
  }

  /** When `x` goes before the last element, the last element may follow every
      element of the list `x` was inserted into. */
  lemma InsertedUpTo(s: seq<FileRecord>, x: FileRecord, front: seq<FileRecord>, sort: string)
    requires Sorted(s, sort) && s != [] && !InOrder(s[|s| - 1], x, sort)
    requires multiset(front) == multiset(s[..|s| - 1]) + multiset{x}
    ensures forall e :: e in front ==> InOrder(e, s[|s| - 1], sort)
  {
    var init := s[..|s| - 1];
    forall e | e in front
      ensures InOrder(e, s[|s| - 1], sort)
    {
      assert e in multiset(front);
      if e != x {
        var k :| 0 <= k < |init| && init[k] == e;
        assert s[k] == e;
      }
    }
  }

  /** `sortFiles`: `Array.prototype.sort` with the creation-time comparator, which
      the source runs in place. Modelled as a stable insertion sort. */
  function SortFiles(files: seq<FileRecord>, sort: string): (r: seq<FileRecord>)
    ensures Sorted(r, sort)
    ensures multiset(r) == multiset(files)
  {
    if files == [] then []
    else
      assert files == files[..|files| - 1] + [files[|files| - 1]];
      Insert(files[|files| - 1], SortFiles(files[..|files| - 1], sort), sort)
  }

  /** A sorted list keeps the chosen order pairwise: non-increasing creation times
      for "desc", non-decreasing for anything else. */
  lemma SortedOrder(files: seq<FileRecord>, sort: string, i: nat, j: nat)
    requires i <= j < |files|
    ensures var r := SortFiles(files, sort);
            |r| == |files| &&
            (if sort == Descending then r[i].createdAt >= r[j].createdAt else r[i].createdAt <= r[j].createdAt)
  {
    var r := SortFiles(files, sort);
    assert |r| == |files| by {
      assert |multiset(r)| == |r| && |multiset(files)| == |files|;
    }
    assert InOrder(r[i], r[j], sort) by {
      if i < j {
        assert Sorted(r, sort);
      }
    }
  }

  /** The unit `formatSize` picks, with the number it shows before rounding. */
  datatype SizeLabel = Bytes(count: nat) | Kilobytes(amount: real) | Megabytes(amount: real)

  /** `formatSize`: bytes below 1024 shown as they are, then kilobytes below
      1024 * 1024, then megabytes. */
  function FormatSize(bytes: nat): (r: SizeLabel)
    ensures r.Bytes? <==> bytes < 1024
    ensures r.Kilobytes? <==> 1024 <= bytes < 1024 * 1024
    ensures r.Bytes? ==> r.count == bytes
    ensures r.Kilobytes? ==> 1.0 <= r.amount < 1024.0 && r.amount * 1024.0 == bytes as real
    ensures r.Megabytes? ==> 1.0 <= r.amount && r.amount * 1048576.0 == bytes as real
  {
    if bytes < 1024 then Bytes(bytes)
    else if bytes < 1024 * 1024 then Kilobytes(bytes as real / 1024.0)
    else Megabytes(bytes as real / (1024.0 * 1024.0))
  }

  function UnitRank(l: SizeLabel): nat {
    match l
    case Bytes(_) => 0
    case Kilobytes(_) => 1
    case Megabytes(_) => 2
  }

  /** A larger file never gets a smaller unit. */
  lemma FormatSizeMonotone(a: nat, b: nat)
    requires a <= b
    ensures UnitRank(FormatSize(a)) <= UnitRank(FormatSize(b))
  {
  }

  datatype Icon = TextIcon | ImageIcon

  /** One table row: what `renderFiles` shows and which actions it offers. Every
      row offers preview, download and delete; `canEdit` says whether it also
      offers edit. */
  datatype Row = Row(id: string, icon: Icon, name: string, size: SizeLabel, canEdit: bool)

  function RowOf(f: FileRecord): (r: Row)
    ensures r.canEdit <==> f.fileType == TextType
    ensures r.icon == TextIcon <==> f.fileType == TextType
    ensures r.id == f.id && r.name == f.originalName && r.size == FormatSize(f.size)
  {
    Row(f.id, if f.fileType == TextType then TextIcon else ImageIcon, f.originalName,
        FormatSize(f.size), f.fileType == TextType)
  }

  function Rows(files: seq<FileRecord>): (r: seq<Row>)
    ensures |r| == |files|
    ensures forall i :: 0 <= i < |files| ==> r[i] == RowOf(files[i])
  {
    seq(|files|, i requires 0 <= i < |files| => RowOf(files[i]))
  }

  /** The edit button is offered for exactly the files whose edit the server does
      not refuse for their type. */
  lemma EditButtonMatchesServer(st: State, f: FileRecord, req: FilesRouter.EditRequest, now: int, writeOk: bool)
    requires Present(req.userId) && Present(req.username)
    requires FilesRouter.Find(Document(st.dbFile).files, f.id, req.userId.value) == Some(f)
    ensures FilesRouter.EditStep(st, f.id, req, now, writeOk).out == Failed(BadRequest) <==> !RowOf(f).canEdit
  {
    var files := Document(st.dbFile).files;
    var i := FilesRouter.FindIndex(files, f.id, req.userId.value);
    assert files[i] == f;
  }

  /** `files.find(f => f.id === fileId)` over the loaded list. */
  function FindById(files: seq<FileRecord>, fileId: string): (r: Option<FileRecord>)
    ensures r.Some? ==> r.value in files && r.value.id == fileId
    ensures r.None? <==> forall f :: f in files ==> f.id != fileId
  {
    if files == [] then None
    else if files[0].id == fileId then Some(files[0])
    else FindById(files[1..], fileId)
  }

  /** `String.prototype.endsWith`. */
  function EndsWith(s: string, suffix: string): (r: bool)
    ensures r <==> |suffix| <= |s| && forall i :: 0 <= i < |suffix| ==> s[|s| - |suffix| + i] == suffix[i]
  {
    |suffix| <= |s| && s[|s| - |suffix|..] == suffix
  }

  /** What the preview dialog shows. `ShowText` and `ShowImage` carry the answer's
      `content` or `url`, which is undefined when the answer is of the other kind. */
  datatype PreviewDisplay = NoDialog | ShowText(content: Option<string>) | ShowImage(url: Option<string>)
                          | ShowUnsupported | ShowError

  function ContentOf(p: FilesRouter.Preview): Option<string> {
    if p.TextPreview? then Some(p.content) else None
  }

  function UrlOf(p: FilesRouter.Preview): Option<string> {
    if p.ImagePreview? then Some(p.url) else None
  }

  /** `previewFile` as written: nothing for an id not in the loaded list, otherwise
      the server's answer shown according to the case-sensitive suffix of the
      original name. */
  function PreviewAsWritten(files: seq<FileRecord>, fileId: string, reply: Outcome<FilesRouter.Preview>): (r: PreviewDisplay)
    ensures FindById(files, fileId).None? <==> r == NoDialog
    ensures reply.Failed? && FindById(files, fileId).Some? ==> r == ShowError
    // a successful answer is shown by the case-sensitive suffix of the name alone
    ensures FindById(files, fileId).Some? && reply.Done? ==>
              var name := FindById(files, fileId).value.originalName;
              && (r.ShowText? <==> EndsWith(name, ".c"))
              && (r.ShowImage? <==> !EndsWith(name, ".c") && (EndsWith(name, ".jpg") || EndsWith(name, ".jpeg")))
              && (r == ShowUnsupported <==> !EndsWith(name, ".c") && !EndsWith(name, ".jpg") && !EndsWith(name, ".jpeg"))
    // what is shown is the answer's own `content` or `url`, undefined for the other kind
    ensures FindById(files, fileId).Some? && reply.Done? ==>
              && (r.ShowText? ==> r.content == ContentOf(reply.value))
              && (r.ShowImage? ==> r.url == UrlOf(reply.value))
  {
    match FindById(files, fileId)
    case None => NoDialog
    case Some(f) =>
      if reply.Failed? then ShowError
      else if EndsWith(f.originalName, ".c") then ShowText(ContentOf(reply.value))
      else if EndsWith(f.originalName, ".jpg") || EndsWith(f.originalName, ".jpeg") then ShowImage(UrlOf(reply.value))
      else ShowUnsupported
  }

  /** `previewFile` as evidently intended: the server's answer shown according to
      its own kind, as `editFile` does with `data.type`. */
  function PreviewByReply(files: seq<FileRecord>, fileId: string, reply: Outcome<FilesRouter.Preview>): (r: PreviewDisplay)
    ensures FindById(files, fileId).None? <==> r == NoDialog
    ensures reply.Failed? && FindById(files, fileId).Some? ==> r == ShowError
    // a successful answer is shown by its own kind, with its own content or url
    ensures FindById(files, fileId).Some? && reply.Done? ==>
              r == (if reply.value.TextPreview? then ShowText(Some(reply.value.content)) else ShowImage(Some(reply.value.url)))
  {
    match FindById(files, fileId)
    case None => NoDialog
    case Some(f) =>
      match reply
      case Failed(_) => ShowError
      case Done(TextPreview(content)) => ShowText(Some(content))
      case Done(ImagePreview(url)) => ShowImage(Some(url))
  }

  /** With the corrected dispatch, every successful server preview of a listed file
      is shown, text as text and images as images. */
  lemma PreviewByReplyShowsServerPreview(files: seq<FileRecord>, st: State, fileId: string, userId: string)
    requires FindById(files, fileId).Some?
    requires FilesRouter.PreviewFile(st, fileId, Some(userId)).Done?
    ensures var p := FilesRouter.PreviewFile(st, fileId, Some(userId)).value;
            var shown := PreviewByReply(files, fileId, FilesRouter.PreviewFile(st, fileId, Some(userId)));
            && (p.TextPreview? ==> shown == ShowText(Some(p.content)))
            && (p.ImagePreview? ==> shown == ShowImage(Some(p.url)))
            && shown != ShowUnsupported
  {
  }

  /** The record of an upload of `MAIN.C`. */
  function UppercaseRecord(): (f: FileRecord)
    ensures f.fileType == TextType
  {
    var stem := "MAIN";
    assert stem[0] != '/' && stem[1] != '/' && stem[2] != '/' && stem[3] != '/';
    UpperCaseCIsText(stem);
    assert stem + "." + "C" == "MAIN.C";
    FileRecord("1", "7", "MAIN.C", "5-MAIN.C", "uploads/5-MAIN.C", 12, FileType("MAIN.C"), "alice", "alice", 0, 0)
  }

  lemma UppercaseNameHasNoLowercaseSuffix()
    ensures !EndsWith("MAIN.C", ".c") && !EndsWith("MAIN.C", ".jpg") && !EndsWith("MAIN.C", ".jpeg")
  {
    assert "MAIN.C"[5] == 'C';
    assert "MAIN.C"[2] == 'I';
    assert "MAIN.C"[1] == 'A';
  }

  /** A `.c` file named in capitals: the server previews it as text, but the page
      as written shows it as unsupported, while the corrected page shows the text. */
  lemma UppercaseNameShownUnsupported()
    ensures var f := UppercaseRecord();
            var st := State(Some(Db([], [f])), map[f.path := "int main(){}"]);
            var reply := FilesRouter.PreviewFile(st, "1", Some("7"));
            && reply == Done(FilesRouter.TextPreview("int main(){}"))
            && PreviewAsWritten([f], "1", reply) == ShowUnsupported
            && PreviewByReply([f], "1", reply) == ShowText(Some("int main(){}"))
  {
    var f := UppercaseRecord();
    assert FilesRouter.FindIndex([f], "1", "7") == 0;
    assert FindById([f], "1") == Some(f);
    UppercaseNameHasNoLowercaseSuffix();
  }

  /** Every listed file whose name ends in a capital letter, such as `<stem>.C` or
      `<stem>.JPG`, is shown as unsupported by the page as written, whatever the
      server answers. */
  lemma CapitalisedNameShownUnsupported(files: seq<FileRecord>, fileId: string, reply: Outcome<FilesRouter.Preview>)
    requires FindById(files, fileId).Some? && reply.Done?
    requires var name := FindById(files, fileId).value.originalName;
             name != [] && 'A' <= name[|name| - 1] <= 'Z'
    ensures PreviewAsWritten(files, fileId, reply) == ShowUnsupported
  {
    var name := FindById(files, fileId).value.originalName;
    LastCharOfSuffix(name, ".c");
    LastCharOfSuffix(name, ".jpg");
    LastCharOfSuffix(name, ".jpeg");
    assert ".c"[1] == 'c' && ".jpg"[3] == 'g' && ".jpeg"[4] == 'g';
  }

  /** A name ends in a suffix only if it ends in the suffix's last character. */
  lemma LastCharOfSuffix(s: string, suffix: string)
    requires suffix != []
    ensures EndsWith(s, suffix) ==> s != [] && s[|s| - 1] == suffix[|suffix| - 1]
  {
    if EndsWith(s, suffix) {
      assert s[|s| - |suffix|..][|suffix| - 1] == s[|s| - 1];
    }
  }

  /** What the edit dialog shows: nothing for an id not in the loaded list, the
      current text in the editor when the server previews the file as text, and an
      error otherwise. */
  datatype EditorDisplay = NoEditor | Editor(content: string) | EditorError

  function EditorAfterPreview(files: seq<FileRecord>, fileId: string, reply: Outcome<FilesRouter.Preview>): (r: EditorDisplay)
    ensures FindById(files, fileId).None? <==> r == NoEditor
    ensures r.Editor? <==> FindById(files, fileId).Some? && reply.Done? && reply.value.TextPreview?
    ensures r.Editor? ==> r.content == reply.value.content
  {
    match FindById(files, fileId)
    case None => NoEditor
    case Some(_) =>
      if reply.Done? && reply.value.TextPreview? then Editor(reply.value.content) else EditorError
  }

  /** The page's module-level state: the loaded list, the filter and the sort. */
  class DriveView {
    var files: seq<FileRecord>
    var currentFilter: string
    var currentSort: string

    constructor ()
      ensures files == [] && currentFilter == AllTypes && currentSort == Descending
    {
      files := [];
      currentFilter := AllTypes;
      currentSort := Descending;
    }

    /** `loadFiles`: on success replaces the list with the server's and renders
        it, which with the filter "all" leaves the new list sorted; on failure
        nothing changes and nothing is rendered. */
    method LoadFiles(reply: Outcome<seq<FileRecord>>) returns (rows: Option<seq<Row>>)
      modifies this
      ensures reply.Failed? ==> rows.None? && files == old(files)
      ensures reply.Done? ==>
                var shown := SortFiles(FilterFiles(reply.value, currentFilter), currentSort);
                && rows == Some(Rows(shown))
                && files == (if currentFilter == AllTypes then shown else reply.value)
                && multiset(files) == multiset(reply.value)
      ensures currentFilter == old(currentFilter) && currentSort == old(currentSort)
    {
      rows := None;
      if reply.Done? {
        files := reply.value;
        var shown := RenderFiles();
        rows := Some(shown);
      }
    }

    /** The filter radio buttons' handler: sets the filter and renders. Choosing
        "all" sorts the loaded list itself. */
    method SetFilter(value: string) returns (rows: seq<Row>)
      modifies this
      ensures currentFilter == value && currentSort == old(currentSort)
      ensures var shown := SortFiles(FilterFiles(old(files), value), currentSort);
              && rows == Rows(shown)
              && files == (if value == AllTypes then shown else old(files))
              && multiset(files) == multiset(old(files))
    {
      currentFilter := value;
      rows := RenderFiles();
    }

    /** The sort selector's handler: sets the order and renders. With the filter
        "all" the loaded list is re-sorted by the new order. */
    method SetSort(value: string) returns (rows: seq<Row>)
      modifies this
      ensures currentSort == value && currentFilter == old(currentFilter)
      ensures var shown := SortFiles(FilterFiles(old(files), currentFilter), value);
              && rows == Rows(shown)
              && files == (if currentFilter == AllTypes then shown else old(files))
              && multiset(files) == multiset(old(files))
    {
      currentSort := value;
      rows := RenderFiles();
    }

    /** `renderFiles`: the rows shown are the filtered list sorted by creation
        time. With the filter "all" the list that is sorted in place is the loaded
        list itself, which therefore stays reordered. */
    method RenderFiles() returns (rows: seq<Row>)
      modifies this
      ensures var shown := SortFiles(FilterFiles(old(files), currentFilter), currentSort);
              && rows == Rows(shown)
              && files == (if currentFilter == AllTypes then shown else old(files))
              && multiset(files) == multiset(old(files))
      ensures currentFilter == old(currentFilter) && currentSort == old(currentSort)
    {
      var filtered := FilterFiles(files, currentFilter);
      var sorted := SortFiles(filtered, currentSort);
      if currentFilter == AllTypes {
        files := sorted;
      }
      rows := Rows(sorted);
    }
  }
}
