/** The file-sharing panel: a list of shared files. Dropped files are put in
    front with a simulated upload that advances by ten per cent per tick and is
    cleared at one hundred; files can be deleted; the header shows the total size. */
module FileSharing {
  import opened Wrappers
  import Text
  import Lists

  /** A file as the browser hands it over: name, MIME type and size in bytes. */
  datatype DroppedFile = DroppedFile(name: string, mime: string, size: int)

  /** A shared file; a missing `isUploading` is modelled as `false`. */
  datatype SharedFile = SharedFile(id: string, name: string, fileType: string, size: int,
                                   uploadedBy: string, uploadedAt: string, thumbnail: Option<string>,
                                   isUploading: bool, uploadProgress: Option<int>)

  /** `file.name.split('.').pop()`: the text after the last dot, or the whole name without one. */
  function Extension(name: string): (r: string) {
    var pieces := Text.Split(name, '.');
    pieces[|pieces| - 1]
  }

  /** The extension is a dot-free suffix of the name, preceded by a dot unless it is
      the whole name, and it is the name itself when the name has no dot. */
  lemma ExtensionAfterLastDot(name: string)
    ensures var r := Extension(name);
      '.' !in r && Text.EndsWith(name, r) && (|r| < |name| ==> name[|name| - |r| - 1] == '.')
    ensures '.' !in name ==> Extension(name) == name
  {
    Text.SplitLastSuffix(name, '.');
    Text.SplitSepFree(name, '.');
    if '.' !in name {
      Text.SplitNoSep(name, '.');
    }
  }

  /** `file.type.includes('image') ? 'image' : file.name.split('.').pop() || 'file'`. */
  function FileType(name: string, mime: string): (r: string)
    ensures Text.Contains(mime, "image") ==> r == "image"
    ensures !Text.Contains(mime, "image") && Extension(name) != "" ==> r == Extension(name)
    ensures !Text.Contains(mime, "image") && Extension(name) == "" ==> r == "file"
  {
    if Text.Contains(mime, "image") then "image"
    else if Extension(name) != "" then Extension(name)
    else "file"
  }

  /** A name with a dot yields the text after its last dot; a name without one
      yields itself; both only when the MIME type does not mention images. */
  lemma FileTypeOfName(base: string, ext: string, mime: string)
    requires !Text.Contains(mime, "image") && '.' !in ext
    ensures FileType(base + "." + ext, mime) == if ext == "" then "file" else ext
    ensures ext != "" ==> FileType(ext, mime) == ext
  {
    Text.SplitLastAfter(base, '.', ext);
    Text.SplitNoSep(ext, '.');
  }

  /** The icon `getFileIcon` picks for a file type. */
  datatype Icon = ImageIcon | PdfIcon | SheetIcon | FigmaIcon | PlainIcon

  function FileIcon(fileType: string): (r: Icon)
    ensures r == ImageIcon <==> fileType in {"image", "jpg", "png", "gif"}
    ensures r == PdfIcon <==> fileType == "pdf"
    ensures r == SheetIcon <==> fileType in {"excel", "xlsx"}
    ensures r == FigmaIcon <==> fileType == "figma"
    ensures r == PlainIcon <==> fileType !in {"image", "jpg", "png", "gif", "pdf", "excel", "xlsx", "figma"}
  {
    match fileType
    case "image" => ImageIcon
    case "jpg" => ImageIcon
    case "png" => ImageIcon
    case "gif" => ImageIcon
    case "pdf" => PdfIcon
    case "excel" => SheetIcon
    case "xlsx" => SheetIcon
    case "figma" => FigmaIcon
    case _ => PlainIcon
  }

  /** The entry `handleDrop` builds for a dropped file. */
  function NewEntry(d: DroppedFile, id: string, uploadedAt: string): (r: SharedFile)
    ensures r.id == id && r.name == d.name && r.size == d.size && r.fileType == FileType(d.name, d.mime)
    ensures r.uploadedBy == "You" && r.uploadedAt == uploadedAt && r.thumbnail.None?
    ensures r.isUploading && r.uploadProgress == Some(0)
  {
    SharedFile(id, d.name, FileType(d.name, d.mime), d.size, "You", uploadedAt, None, true, Some(0))
  }

  /** The entries `handleDrop` builds, one per dropped file, in drop order.
      `stamps` holds each file's id and upload time. */
  function Entries(dropped: seq<DroppedFile>, stamps: seq<(string, string)>): (r: seq<SharedFile>)
    requires |stamps| == |dropped|
    ensures |r| == |dropped|
  {
    seq(|dropped|, i requires 0 <= i < |dropped| => NewEntry(dropped[i], stamps[i].0, stamps[i].1))
  }

  /** The files after each dropped file was put in front, in drop order: the last
      dropped file ends up first. */
  function DropAll(files: seq<SharedFile>, dropped: seq<DroppedFile>, stamps: seq<(string, string)>): (r: seq<SharedFile>)
    requires |stamps| == |dropped|
    ensures |r| == |files| + |dropped|
    ensures r[|dropped|..] == files
  {
    Lists.PrependEach(files, Entries(dropped, stamps))
  }

  /** The entry of the `i`-th dropped file sits at position `|dropped| - 1 - i`: the last dropped comes first. */
  lemma DropAllEntry(files: seq<SharedFile>, dropped: seq<DroppedFile>, stamps: seq<(string, string)>, i: nat)
    requires |stamps| == |dropped| && i < |dropped|
    ensures DropAll(files, dropped, stamps)[|dropped| - 1 - i] == NewEntry(dropped[i], stamps[i].0, stamps[i].1)
  {
    Lists.PrependEachAt(files, Entries(dropped, stamps), i);
  }

  /** One interval callback of the upload of file `id`. */
  function TickFile(f: SharedFile, id: string): (r: SharedFile)
    ensures f.id != id ==> r == f
  {
    if f.id == id && f.uploadProgress.Some? && f.uploadProgress.value < 100 then
      f.(uploadProgress := Some(f.uploadProgress.value + 10))
    else if f.id == id && f.uploadProgress == Some(100) then
      f.(isUploading := false, uploadProgress := None)
    else f
  }

  /** `prev.map(f => ...)` over all files: only files with that id change. */
  function TickAll(files: seq<SharedFile>, id: string): (r: seq<SharedFile>)
    ensures |r| == |files|
    ensures forall i :: 0 <= i < |files| ==> r[i] == TickFile(files[i], id)
  {
    seq(|files|, i requires 0 <= i < |files| => TickFile(files[i], id))
  }

  /** `n` ticks of one file. */
  function Ticks(f: SharedFile, id: string, n: nat): SharedFile {
    if n == 0 then f else TickFile(Ticks(f, id, n - 1), id)
  }

  /** From 0 the progress is ten times the number of ticks up to 100, the next tick
      ends the upload, and nothing changes after that. */
  lemma {:induction false} UploadRuns(f: SharedFile, n: nat)
    requires f.uploadProgress == Some(0)
    ensures n <= 10 ==> Ticks(f, f.id, n) == f.(uploadProgress := Some(10 * n))
    ensures n > 10 ==> Ticks(f, f.id, n) == f.(isUploading := false, uploadProgress := None)
  {
    if n > 0 {
      UploadRuns(f, n - 1);
    }
  }

  /** The interval callbacks an upload gets: one every 200 ms until the `clearInterval`
      scheduled at 2000 ms, so at most ten. */
  const IntervalTicks: nat := 2000 / 200

  /** As written, an upload never ends: within the callbacks it gets, a dropped file is
      still uploading, at ten per cent per callback, and its actions stay hidden. */
  lemma UploadNeverEnds(f: SharedFile, n: nat)
    requires f.isUploading && f.uploadProgress == Some(0) && n <= IntervalTicks
    ensures Ticks(f, f.id, n).isUploading
    ensures Ticks(f, f.id, n).uploadProgress == Some(10 * n)
  {
    UploadRuns(f, n);
  }

  /** The callbacks an upload needs: ten to reach 100 and one more to end it. */
  const IntendedTicks: nat := IntervalTicks + 1

  /** With the intended number of callbacks every upload from 0 ends, and stays ended. */
  lemma UploadEnds(f: SharedFile, n: nat)
    requires f.uploadProgress == Some(0) && n >= IntendedTicks
    ensures !Ticks(f, f.id, n).isUploading && Ticks(f, f.id, n).uploadProgress.None?
  {
    UploadRuns(f, n);
  }

  /** Each entry of `stamps` starts with the full number of callbacks for its id. */
  function StartBudgets(budget: map<string, nat>, stamps: seq<(string, string)>): (r: map<string, nat>)
    ensures forall i :: 0 <= i < |stamps| ==> stamps[i].0 in r && r[stamps[i].0] == IntervalTicks
    ensures forall id :: id in budget && (forall i :: 0 <= i < |stamps| ==> stamps[i].0 != id) ==>
      id in r && r[id] == budget[id]
    ensures r.Keys == budget.Keys + set i | 0 <= i < |stamps| :: stamps[i].0
  {
    if stamps == [] then budget
    else
      var n := |stamps| - 1;
      var m := StartBudgets(budget, stamps[..n]);
      assert forall i :: 0 <= i < n ==> stamps[..n][i] == stamps[i];
      m[stamps[n].0 := IntervalTicks]
  }

  /** Progress is missing or a multiple of ten between 0 and 100. */
  predicate ProgressOk(f: SharedFile) {
    f.uploadProgress.None? || (0 <= f.uploadProgress.value <= 100 && f.uploadProgress.value % 10 == 0)
  }

  /** A tick keeps progress within bounds: it never passes 100. */
  lemma TickKeepsProgressOk(f: SharedFile, id: string)
    requires ProgressOk(f)
    ensures ProgressOk(TickFile(f, id))
  {
  }

  /** The files carrying another id than `id`. */
  function NotId(id: string): SharedFile -> bool {
    (f: SharedFile) => f.id != id
  }

  /** `files.reduce((sum, f) => sum + f.size, 0)`: 0 for no files, and the sizes added
      in list order, the last one added to the total of the others; non-negative sizes give a
      non-negative total. */
  function TotalSize(files: seq<SharedFile>): (r: int)
    ensures files == [] ==> r == 0
    ensures files != [] ==> r == TotalSize(files[..|files| - 1]) + files[|files| - 1].size
    ensures (forall i :: 0 <= i < |files| ==> files[i].size >= 0) ==> r >= 0
  {
    if files == [] then 0
    else
      var rest := files[1..];
      var t := TotalSize(rest);
      assert rest != [] ==> files[..|files| - 1][1..] == rest[..|rest| - 1];
      assert rest == [] ==> files[..|files| - 1] == [];
      assert (forall i :: 0 <= i < |files| ==> files[i].size >= 0) ==>
        (forall i :: 0 <= i < |rest| ==> rest[i].size >= 0) by {
        forall i | 0 <= i < |rest| ensures rest[i] == files[i + 1] { }
      }
      files[0].size + t
  }

  /** Deleting removes exactly the files with that id, keeps the order of the
      others, and takes their sizes off the total. */
  lemma {:induction false} DeleteRemovesExactly(files: seq<SharedFile>, id: string)
    ensures var r := Lists.Filter(files, NotId(id));
      (forall i :: 0 <= i < |r| ==> r[i].id != id) &&
      (forall i :: 0 <= i < |files| && files[i].id != id ==> files[i] in r) &&
      Lists.IsSubsequence(r, files) &&
      TotalSize(r) + TotalSize(Lists.Filter(files, HasId(id))) == TotalSize(files)
  {
    Lists.FilterIsSubsequence(files, NotId(id));
    DeleteSizes(files, id);
  }

  /** The files carrying id `id`. */
  function HasId(id: string): SharedFile -> bool {
    (f: SharedFile) => f.id == id
  }

  lemma {:induction false} DeleteSizes(files: seq<SharedFile>, id: string)
    ensures TotalSize(Lists.Filter(files, NotId(id))) + TotalSize(Lists.Filter(files, HasId(id))) == TotalSize(files)
  {
    if files != [] {
      DeleteSizes(files[1..], id);
      var f := files[0];
      var kept := Lists.Filter(files[1..], NotId(id));
      var gone := Lists.Filter(files[1..], HasId(id));
      if f.id == id {
        assert Lists.Filter(files, NotId(id)) == kept;
        assert Lists.Filter(files, HasId(id)) == [f] + gone;
        assert ([f] + gone)[1..] == gone;
      } else {
        assert Lists.Filter(files, NotId(id)) == [f] + kept;
        assert Lists.Filter(files, HasId(id)) == gone;
        assert ([f] + kept)[1..] == kept;
      }
    }
  }

  /** The total grows by the sizes of the dropped files. */
  lemma DropAddsSizes(files: seq<SharedFile>, dropped: seq<DroppedFile>, stamps: seq<(string, string)>)
    requires |stamps| == |dropped|
    ensures TotalSize(DropAll(files, dropped, stamps)) == TotalSize(files) + DroppedSize(dropped)
  {
    var news := Entries(dropped, stamps);
    PrependSizes(files, news);
    forall k | 0 <= k < |news| ensures news[k].size == dropped[k].size {
      assert news[k] == NewEntry(dropped[k], stamps[k].0, stamps[k].1);
    }
    SameSizes(news, dropped);
  }

  lemma {:induction false} PrependSizes(files: seq<SharedFile>, news: seq<SharedFile>)
    ensures TotalSize(Lists.PrependEach(files, news)) == TotalSize(files) + TotalSize(news)
  {
    if news != [] {
      var n := |news| - 1;
      PrependSizes(files, news[..n]);
      var rest := Lists.PrependEach(files, news[..n]);
      assert ([news[n]] + rest)[1..] == rest;
    }
  }

  lemma {:induction false} SameSizes(news: seq<SharedFile>, dropped: seq<DroppedFile>)
    requires |news| == |dropped| && forall k :: 0 <= k < |news| ==> news[k].size == dropped[k].size
    ensures TotalSize(news) == DroppedSize(dropped)
  {
    if news != [] {
      var n := |news| - 1;
      SameSizes(news[..n], dropped[..n]);
    }
  }

  function DroppedSize(dropped: seq<DroppedFile>): int {
    if dropped == [] then 0 else DroppedSize(dropped[..|dropped| - 1]) + dropped[|dropped| - 1].size
  }

  /** Dropping one more file adds its entry at the end of the entries. */
  lemma EntriesSnoc(dropped: seq<DroppedFile>, stamps: seq<(string, string)>, i: nat)
    requires |stamps| == |dropped| && i < |dropped|
    ensures Entries(dropped[..i + 1], stamps[..i + 1])
      == Entries(dropped[..i], stamps[..i]) + [NewEntry(dropped[i], stamps[i].0, stamps[i].1)]
  {
    var a := Entries(dropped[..i + 1], stamps[..i + 1]);
    var b := Entries(dropped[..i], stamps[..i]) + [NewEntry(dropped[i], stamps[i].0, stamps[i].1)];
    forall k | 0 <= k <= i ensures a[k] == b[k] {
      assert dropped[..i + 1][k] == dropped[k] && stamps[..i + 1][k] == stamps[k];
      if k < i {
        assert dropped[..i][k] == dropped[k] && stamps[..i][k] == stamps[k];
      }
    }
  }

  /** The panel's state. */
  class FileList {
    var files: seq<SharedFile>
    /** The interval callbacks each upload still gets before its `clearInterval`. */
    var ticksLeft: map<string, nat>

    constructor (initial: seq<SharedFile>)
      ensures files == initial && ticksLeft == map[]
    {
      files := initial;
      ticksLeft := map[];
    }

    /** `handleDrop`: each dropped file in turn is put in front of the list and its
        upload interval is started. */
    method HandleDrop(dropped: seq<DroppedFile>, stamps: seq<(string, string)>)
      requires |stamps| == |dropped|
      modifies this
      ensures files == DropAll(old(files), dropped, stamps)
      ensures ticksLeft == StartBudgets(old(ticksLeft), stamps)
    {
      var i := 0;
      while i < |dropped|
        invariant 0 <= i <= |dropped|
        invariant files == DropAll(old(files), dropped[..i], stamps[..i])
        invariant ticksLeft == StartBudgets(old(ticksLeft), stamps[..i])
      {
        ghost var before := Entries(dropped[..i], stamps[..i]);
        var e := NewEntry(dropped[i], stamps[i].0, stamps[i].1);
        EntriesSnoc(dropped, stamps, i);
        Lists.PrependEachSnoc(old(files), before, e);
        assert stamps[..i + 1][..i] == stamps[..i];
        files := [e] + files;
        ticksLeft := ticksLeft[stamps[i].0 := IntervalTicks];
        i := i + 1;
      }
      assert dropped[..i] == dropped && stamps[..i] == stamps;
    }

    /** One interval callback of the upload of file `id`: it runs only while the
        interval has not been cleared, and spends one of the callbacks left. */
    method UploadTick(id: string)
      modifies this
      ensures id in old(ticksLeft) && old(ticksLeft)[id] > 0 ==>
        files == TickAll(old(files), id) && ticksLeft == old(ticksLeft)[id := old(ticksLeft)[id] - 1]
      ensures !(id in old(ticksLeft) && old(ticksLeft)[id] > 0) ==>
        files == old(files) && ticksLeft == old(ticksLeft)
    {
      if id in ticksLeft && ticksLeft[id] > 0 {
        files := TickAll(files, id);
        ticksLeft := ticksLeft[id := ticksLeft[id] - 1];
      }
    }

    /** `deleteFile(fileId)`. */
    method DeleteFile(fileId: string)
      modifies this
      ensures files == Lists.Filter(old(files), NotId(fileId))
      ensures ticksLeft == old(ticksLeft)
    {
      files := Lists.Filter(files, NotId(fileId));
    }
  }
}
