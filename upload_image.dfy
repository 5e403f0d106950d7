/** The image editor of one order line. It is handed the line's current
    list of encoded images (`value`) and reports every new list through
    `onChange`; it does not own the list. Picked or pasted files are filtered
    down to images and each is read asynchronously; a finished read is an
    event carrying the reader's result. Its own state is whether the paste
    zone has focus and which image, if any, the fullscreen viewer shows. */
module UploadImage {
  import opened Support

  /** A picked or pasted file: its media type and its bytes. */
  datatype FileEntry = FileEntry(mimeType: string, bytes: seq<int>)

  /** `file.type.startsWith("image/")`. */
  predicate IsImageFile(f: FileEntry)
  {
    StartsWith(f.mimeType, "image/")
  }

  /** The files a reader is started for, in the order of the input. */
  function ImageFiles(files: seq<FileEntry>): (r: seq<FileEntry>)
    ensures |r| <= |files|
    ensures forall f :: f in r ==> f in files && IsImageFile(f)
    ensures forall f :: f in files && IsImageFile(f) ==> f in r
  {
    if files == [] then []
    else (if IsImageFile(files[0]) then [files[0]] else []) + ImageFiles(files[1..])
  }

  /** Filtering one more file extends the filtered list by that file exactly
      when it is an image. */
  lemma {:induction false} ImageFilesSnoc(files: seq<FileEntry>, f: FileEntry)
    ensures ImageFiles(files + [f]) == ImageFiles(files) + (if IsImageFile(f) then [f] else [])
  {
    var last := if IsImageFile(f) then [f] else [];
    if files == [] {
      assert files + [f] == [f];
    } else {
      var first := if IsImageFile(files[0]) then [files[0]] else [];
      assert (files + [f])[1..] == files[1..] + [f];
      ImageFilesSnoc(files[1..], f);
      calc {
        ImageFiles(files + [f]);
        first + ImageFiles(files[1..] + [f]);
        first + (ImageFiles(files[1..]) + last);
        (first + ImageFiles(files[1..])) + last;
        ImageFiles(files) + last;
      }
    }
  }

  /** `handleFiles`: a missing file list starts nothing; otherwise every
      image file starts one read, in order, and every other file is skipped. */
  method HandleFiles(files: Option<seq<FileEntry>>) returns (started: seq<FileEntry>)
    ensures files.None? ==> started == []
    ensures files.Some? ==> started == ImageFiles(files.value)
  {
    started := [];
    if files.None? {
      return;
    }
    var fs := files.value;
    for i := 0 to |fs|
      invariant started == ImageFiles(fs[..i])
    {
      ImageFilesSnoc(fs[..i], fs[i]);
      assert fs[..i + 1] == fs[..i] + [fs[i]];
      if IsImageFile(fs[i]) {
        started := started + [fs[i]];
      }
    }
    assert fs[..|fs|] == fs;
  }

  /** One entry of the clipboard: its type and what `getAsFile()` gives. */
  datatype ClipboardEntry = ClipboardEntry(kind: string, asFile: Option<FileEntry>)

  /** `item.type.indexOf("image") !== -1` and `getAsFile()` is not null. */
  predicate IsPastedImage(item: ClipboardEntry)
  {
    Includes(item.kind, "image") && item.asFile.Some?
  }

  /** The files the paste handler collects, in clipboard order. */
  function PastedFiles(items: seq<ClipboardEntry>): (files: seq<FileEntry>)
    ensures |files| <= |items|
    ensures forall f :: f in files ==> exists item :: item in items && IsPastedImage(item) && item.asFile == Some(f)
    ensures forall item :: item in items && IsPastedImage(item) ==> item.asFile.value in files
  {
    if items == [] then []
    else (if IsPastedImage(items[0]) then [items[0].asFile.value] else []) + PastedFiles(items[1..])
  }

  lemma {:induction false} PastedFilesSnoc(items: seq<ClipboardEntry>, item: ClipboardEntry)
    ensures PastedFiles(items + [item])
         == PastedFiles(items) + (if IsPastedImage(item) then [item.asFile.value] else [])
  {
    var last := if IsPastedImage(item) then [item.asFile.value] else [];
    if items == [] {
      assert items + [item] == [item];
    } else {
      var first := if IsPastedImage(items[0]) then [items[0].asFile.value] else [];
      assert (items + [item])[1..] == items[1..] + [item];
      PastedFilesSnoc(items[1..], item);
      calc {
        PastedFiles(items + [item]);
        first + PastedFiles(items[1..] + [item]);
        first + (PastedFiles(items[1..]) + last);
        (first + PastedFiles(items[1..])) + last;
        PastedFiles(items) + last;
      }
    }
  }

  /** `handlePaste`: collect the image entries of the clipboard and hand
      them to `handleFiles`, or hand it nothing when there are none. */
  method HandlePaste(items: seq<ClipboardEntry>) returns (started: seq<FileEntry>)
    ensures PastedFiles(items) == [] ==> started == []
    ensures started == ImageFiles(PastedFiles(items))
  {
    var files: seq<FileEntry> := [];
    var i := 0;
    while i < |items|
      invariant 0 <= i <= |items|
      invariant files == PastedFiles(items[..i])
    {
      PastedFilesSnoc(items[..i], items[i]);
      assert items[..i + 1] == items[..i] + [items[i]];
      var item := items[i];
      if Includes(item.kind, "image") {
        var file := item.asFile;
        if file.Some? {
          files := files + [file.value];
        }
      }
      i := i + 1;
    }
    assert items[..|items|] == items;
    started := HandleFiles(if |files| > 0 then Some(files) else None);
  }

  /** What `reader.result` holds when a read finishes: a data URL, or
      anything that is not a string. */
  datatype ReadResult = Text(dataUrl: string) | NotText

  /** `reader.onload` as written: the list captured when `handleFiles` was
      called, with the result appended; nothing for a non-string result. */
  function OnLoad(captured: seq<string>, result: ReadResult): (emitted: Option<seq<string>>)
    ensures emitted.Some? <==> result.Text?
    ensures emitted.Some? ==>
      && |emitted.value| == |captured| + 1
      && emitted.value[..|captured|] == captured
      && emitted.value[|captured|] == result.dataUrl
  {
    if result.Text? then Some(captured + [result.dataUrl]) else None
  }

  /** The data URLs among the results, in completion order. */
  function Texts(results: seq<ReadResult>): seq<string>
  {
    if results == [] then []
    else (if results[0].Text? then [results[0].dataUrl] else []) + Texts(results[1..])
  }

  /** The list the line holds after the reads of one call finish in the
      order `results`, each emission replacing the stored list; every read
      of the call captured the same `captured` list. */
  function StoredAfterAsWritten(stored: seq<string>, captured: seq<string>,
                                results: seq<ReadResult>): (after: seq<string>)
    decreases |results|
    ensures after == stored || (|after| == |captured| + 1 && after[..|captured|] == captured)
  {
    if results == [] then stored
    else
      var emitted := OnLoad(captured, results[0]);
      StoredAfterAsWritten(if emitted.Some? then emitted.value else stored, captured, results[1..])
  }

  /** As written, only the read that finishes last survives: the stored list
      ends up as the captured list plus one image, however many images the
      call read. */
  lemma {:induction false} AsWrittenKeepsOnlyLastRead(stored: seq<string>, captured: seq<string>,
                                                     results: seq<ReadResult>)
    decreases |results|
    ensures var texts := Texts(results);
            StoredAfterAsWritten(stored, captured, results)
            == if texts == [] then stored else captured + [texts[|texts| - 1]]
  {
    if results != [] {
      var emitted := OnLoad(captured, results[0]);
      AsWrittenKeepsOnlyLastRead(if emitted.Some? then emitted.value else stored, captured, results[1..]);
    }
  }

  /** Picking two images at once while the line holds none leaves it with one. */
  lemma AsWrittenLosesAnImage(a: string, b: string)
    ensures StoredAfterAsWritten([], [], [Text(a), Text(b)]) == [b]
  {
    var results := [Text(a), Text(b)];
    assert Texts(results[1..]) == [b];
    assert Texts(results) == [a, b];
    AsWrittenKeepsOnlyLastRead([], [], results);
  }

  /** A finished read as intended: the result is appended to the list the
      line holds when the read finishes. */
  function OnLoadLatest(latest: seq<string>, result: ReadResult): (updated: seq<string>)
    ensures result.NotText? ==> updated == latest
    ensures result.Text? ==>
      |updated| == |latest| + 1 && updated[..|latest|] == latest && updated[|latest|] == result.dataUrl
  {
    if result.Text? then latest + [result.dataUrl] else latest
  }

  /** The list the line holds after reads finish in the order `results`,
      each appending to the list the line holds at that moment; nothing the
      line held is lost. */
  function StoredAfter(stored: seq<string>, results: seq<ReadResult>): (after: seq<string>)
    decreases |results|
    ensures |after| >= |stored| && after[..|stored|] == stored
  {
    if results == [] then stored
    else StoredAfter(OnLoadLatest(stored, results[0]), results[1..])
  }

  /** With the intended handler every image read is kept, once each, in
      completion order. */
  lemma {:induction false} StoredAfterKeepsEveryRead(stored: seq<string>, results: seq<ReadResult>)
    decreases |results|
    ensures StoredAfter(stored, results) == stored + Texts(results)
  {
    if results != [] {
      StoredAfterKeepsEveryRead(OnLoadLatest(stored, results[0]), results[1..]);
      assert stored + Texts(results) == OnLoadLatest(stored, results[0]) + Texts(results[1..]);
    }
  }

  /** Two images read concurrently (a pick racing a paste) are both kept,
      once each, whichever finishes first. */
  lemma BothOrdersKeepBoth(stored: seq<string>, a: string, b: string)
    ensures multiset(StoredAfter(stored, [Text(a), Text(b)]))
         == multiset(StoredAfter(stored, [Text(b), Text(a)]))
         == multiset(stored) + multiset{a, b}
  {
    var ab, ba := [Text(a), Text(b)], [Text(b), Text(a)];
    assert Texts(ab[1..]) == [b] && Texts(ab) == [a, b];
    assert Texts(ba[1..]) == [a] && Texts(ba) == [b, a];
    StoredAfterKeepsEveryRead(stored, ab);
    StoredAfterKeepsEveryRead(stored, ba);
    assert multiset([a, b]) == multiset([b, a]) == multiset{a, b};
  }

  /** `removeImage(index)`: the list without the image at `index`, the
      others in their order; an index outside the list emits the list
      unchanged. */
  function RemoveImage(value: seq<string>, index: int): (updated: seq<string>)
    ensures 0 <= index < |value| ==> updated == value[..index] + value[index + 1..]
    ensures 0 <= index < |value| ==> multiset(value) == multiset(updated) + multiset{value[index]}
    ensures !(0 <= index < |value|) ==> updated == value
  {
    if 0 <= index < |value| then
      DropIndexSplit(value, index);
      DropIndexMultiset(value, index);
      DropIndex(value, index)
    else
      DropIndex(value, index)
  }

  /** More images than this and the gallery shows scroll buttons. */
  const ScrollButtonThreshold: nat := 6

  /** How far one click of a scroll button moves the gallery. */
  const ScrollAmount: int := 150

  datatype GalleryView = NoGallery | Gallery(scrollButtons: bool)

  /** What the editor draws for `value`: the gallery only for a non-empty
      list, with scroll buttons only when it holds more than six images. */
  function ViewOf(value: seq<string>): (v: GalleryView)
    ensures v.Gallery? <==> value != []
    ensures v.Gallery? ==> (v.scrollButtons <==> |value| > 6)
  {
    if |value| > 0 then Gallery(|value| > ScrollButtonThreshold) else NoGallery
  }

  /** Removing an image never brings up the gallery or its buttons. */
  lemma RemovalNeverAddsControls(value: seq<string>, index: int)
    ensures ViewOf(RemoveImage(value, index)).Gallery? ==> ViewOf(value).Gallery?
    ensures var after := ViewOf(RemoveImage(value, index));
            after.Gallery? && after.scrollButtons ==> ViewOf(value).scrollButtons
  {
  }

  datatype Direction = Left | Right

  /** `scroll(direction)`: the horizontal offset passed to `scrollBy`, or
      nothing when the gallery container is not mounted. */
  function Scroll(hasContainer: bool, direction: Direction): (delta: Option<int>)
    ensures delta.None? <==> !hasContainer
    ensures delta.Some? ==> (delta.value < 0 <==> direction == Left)
    ensures delta.Some? ==> (delta.value == ScrollAmount || delta.value == -ScrollAmount)
  {
    if !hasContainer then None
    else Some(if direction == Left then -ScrollAmount else ScrollAmount)
  }

  /** The fullscreen viewer is drawn only for a non-empty source
      (`fullscreenImage && …`). */
  predicate ViewerShown(viewer: Option<string>)
  {
    viewer.Some? && viewer.value != ""
  }

  /** The elements of the viewer a click can land on. */
  datatype ViewerElement = Backdrop | Panel | CloseButton | Enlarged

  /** The elements a click on `target` bubbles through, innermost first. */
  function BubblePath(target: ViewerElement): (path: seq<ViewerElement>)
    ensures path != [] && path[0] == target && path[|path| - 1] == Backdrop
    ensures target == CloseButton || target == Enlarged ==> path[1] == Panel
    ensures forall k :: 0 < k < |path| ==> path[k] != target
  {
    match target
    case Backdrop => [Backdrop]
    case Panel => [Panel, Backdrop]
    case CloseButton => [CloseButton, Panel, Backdrop]
    case Enlarged => [Enlarged, Panel, Backdrop]
  }

  /** One element's click handler: the viewer state it leaves and whether
      it stops propagation. */
  datatype Handled = Handled(viewer: Option<string>, stop: bool)

  function OnClick(e: ViewerElement, viewer: Option<string>): (h: Handled)
    ensures h.stop <==> e == Panel
    ensures h.viewer == None <==> e == Backdrop || e == CloseButton || viewer == None
    ensures h.viewer != None ==> h.viewer == viewer
  {
    match e
    case Backdrop => Handled(None, false)
    case Panel => Handled(viewer, true)
    case CloseButton => Handled(None, false)
    case Enlarged => Handled(viewer, false)
  }

  /** The elements whose handlers run: the path up to and including the
      first one that stops propagation. */
  function HandlersRun(path: seq<ViewerElement>, viewer: Option<string>): seq<ViewerElement>
  {
    if path == [] then []
    else
      var h := OnClick(path[0], viewer);
      [path[0]] + (if h.stop then [] else HandlersRun(path[1..], h.viewer))
  }

  /** The viewer state once the click has finished bubbling. */
  function Bubble(path: seq<ViewerElement>, viewer: Option<string>): (after: Option<string>)
    ensures after == viewer || after == None
    ensures (Backdrop in path || CloseButton in path) && Panel !in path ==> after == None
  {
    if path == [] then viewer
    else
      var h := OnClick(path[0], viewer);
      if h.stop then h.viewer else Bubble(path[1..], h.viewer)
  }

  /** A click inside the panel never reaches the backdrop; the backdrop and
      the close button close the viewer, other clicks leave it as it is. */
  lemma ClickInViewer(target: ViewerElement, viewer: Option<string>)
    ensures Backdrop in HandlersRun(BubblePath(target), viewer) <==> target == Backdrop
    ensures Bubble(BubblePath(target), viewer)
         == if target == Backdrop || target == CloseButton then None else viewer
  {
  }

  /** The image editor's own state. */
  class ImageEditor {
    var isFocused: bool
    var fullscreenImage: Option<string>

    constructor ()
      ensures !isFocused && fullscreenImage == None
    {
      isFocused := false;
      fullscreenImage := None;
    }

    /** The paste zone gains focus (its border is highlighted). */
    method OnFocus()
      modifies this
      ensures isFocused && fullscreenImage == old(fullscreenImage)
    {
      isFocused := true;
    }

    method OnBlur()
      modifies this
      ensures !isFocused && fullscreenImage == old(fullscreenImage)
    {
      isFocused := false;
    }

    /** Clicking a thumbnail opens the viewer on that image. */
    method OnThumbnailClick(src: string)
      modifies this
      ensures fullscreenImage == Some(src) && isFocused == old(isFocused)
    {
      fullscreenImage := Some(src);
    }

    /** A click on the open viewer. */
    method OnViewerClick(target: ViewerElement)
      requires ViewerShown(fullscreenImage)
      modifies this
      ensures fullscreenImage == Bubble(BubblePath(target), old(fullscreenImage))
      ensures fullscreenImage == None <==> target == Backdrop || target == CloseButton
      ensures isFocused == old(isFocused)
    {
      ClickInViewer(target, fullscreenImage);
      fullscreenImage := Bubble(BubblePath(target), fullscreenImage);
    }
  }
}
