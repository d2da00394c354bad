/** The Windows variant: `convert_to_bmp_with_padding`, `set_wallpaper` and
    one iteration of `main_loop`. The network, PIL and the Win32 calls are
    outside the model; what they do in an iteration is given as an
    `Outcome`. */
module Windows {
  import opened Wrappers
  import opened Naming
  import opened Letterbox
  import opened WallpaperDir

  /** What the outside world does during one iteration. */
  datatype Outcome = Outcome(
    url: Option<string>,     // `get_new_wallpaper_url`: None when the request, the status or the JSON lookup fails
    locked: set<string>,     // entries whose unlink raises during the cleanup
    downloadOk: bool,        // the GET of the image and the write of its bytes
    screen: Size,            // `GetSystemMetrics(0)` and `GetSystemMetrics(1)`
    image: Option<Size>,     // the size PIL decodes; None when it cannot open the file
    encodeOk: bool,          // the resize, the paste and the BMP save succeed
    applied: bool)           // what `SystemParametersInfoW` returns

  /** How an iteration ended. `Converted(false)` is not an exception: that
      the call failed is only printed. */
  datatype Status = Converted(applied: bool) | FetchFailed | DownloadFailed | ConvertFailed

  /** `convert_to_bmp_with_padding(src)`: the letterbox of the image on the
      screen, saved as BMP next to the source under the same name with the
      suffix `.bmp`. None where it raises: PIL cannot open or save the
      image, or a side of zero pixels divides by zero. */
  function ConvertToBmp(src: string, screen: Size, image: Option<Size>, encodeOk: bool): (r: Option<Fitted>)
    requires src != []
    ensures r.Some? <==> image.Some? && Positive(image.value) && encodeOk
    ensures r.Some? ==> r.value.canvas == screen && r.value.source == image.value
    ensures r.Some? ==> r.value.name == WithSuffix(src, ".bmp") && Suffix(r.value.name) == ".bmp"
    ensures r.Some? && '/' !in src ==> '/' !in r.value.name
  {
    match image
    case Some(size) =>
      if Positive(size) && encodeOk then
        SuffixOfWithSuffix(src, ".bmp");
        Some(Fitted(WithSuffix(src, ".bmp"), screen, size))
      else None
    case None => None
  }

  /** The saved image is the letterbox of the source on a canvas of the
      screen size: on a positive screen nothing is cropped and the bars are
      centred. */
  lemma {:induction false} SavedImageIsLetterboxed(src: string, screen: Size, image: Option<Size>, encodeOk: bool)
    requires src != []
    requires ConvertToBmp(src, screen, image, encodeOk).Some?
    requires Positive(ConvertToBmp(src, screen, image, encodeOk).value.canvas)
    ensures var f := ConvertToBmp(src, screen, image, encodeOk).value;
      f.Drawn().canvas == f.canvas && Inside(f.Drawn()) && Centred(f.Drawn())
  {
    var f := ConvertToBmp(src, screen, image, encodeOk).value;
    assert Positive(f.source);
  }

  /** The loop's state: the last converted file (`current_bmp`) and the
      wallpapers directory. */
  datatype State = State(current: Option<string>, entries: map<string, Kind>)

  /** One pass through the body of `main_loop`'s `while True`. */
  function Iteration(s: State, o: Outcome): (r: (Status, State))
    ensures r.0.Converted? ==>
      && o.url.Some? && !NamesDirectory(UrlFileName(o.url.value))
      && o.downloadOk && o.image.Some? && Positive(o.image.value) && o.encodeOk
    ensures r.0.Converted? ==> r.0.applied == o.applied
    ensures !r.0.Converted? ==> r.1.current == s.current
    ensures r.0.Converted? ==> r.1.current == Some(WithSuffix(UrlFileName(o.url.value), ".bmp"))
  {
    match o.url
    case None => (FetchFailed, s)
    case Some(url) =>
      var name := UrlFileName(url);
      var cleaned := CleanupIfSet(s.entries, s.current, o.locked);
      if !o.downloadOk || !Writable(cleaned, name) then (DownloadFailed, State(s.current, cleaned))
      else AfterDownload(s.current, cleaned[name := RegularFile], name, o)
  }

  /** The rest of the loop body once the image is saved as `name`:
      `convert_to_bmp_with_padding` and `set_wallpaper`. */
  function AfterDownload(current: Option<string>, downloaded: map<string, Kind>, name: string, o: Outcome): (r: (Status, State))
    requires name != []
    ensures r.0.Converted? ==> o.image.Some? && Positive(o.image.value) && o.encodeOk
    ensures r.0.Converted? ==> r.0.applied == o.applied
    ensures !r.0.Converted? ==> r.1.current == current
    ensures r.0.Converted? ==>
      r.1 == State(Some(WithSuffix(name, ".bmp")), downloaded[WithSuffix(name, ".bmp") := RegularFile])
  {
    match ConvertToBmp(name, o.screen, o.image, o.encodeOk)
    case None => (ConvertFailed, State(current, downloaded))
    case Some(bmp) =>
      if !Writable(downloaded, bmp.name) then (ConvertFailed, State(current, downloaded))
      else
        var written := downloaded[bmp.name := RegularFile];
        // `set_wallpaper` only prints when the call fails, and the loop then
        // records the file as current all the same
        (Converted(o.applied), State(Some(bmp.name), written))
  }

  /** The state a conversion leaves, whether or not Windows accepted it:
      the previous file kept by the cleanup, then the download and the BMP
      written. */
  lemma {:induction false} ConvertedState(s: State, o: Outcome)
    requires Iteration(s, o).0.Converted?
    ensures var name := UrlFileName(o.url.value); var bmp := WithSuffix(name, ".bmp");
      Iteration(s, o).1 == State(Some(bmp), CleanupIfSet(s.entries, s.current, o.locked)[name := RegularFile][bmp := RegularFile])
  {
  }

  /** The converse of the first property of Iteration: when the download and
      the conversion succeed and neither file name is taken by a
      subdirectory, the BMP becomes current. */
  lemma {:induction false} ConvertsWhenAllSucceed(s: State, o: Outcome)
    requires o.url.Some? && o.downloadOk && o.image.Some? && Positive(o.image.value) && o.encodeOk
    requires Writable(s.entries, UrlFileName(o.url.value))
    requires Writable(s.entries, WithSuffix(UrlFileName(o.url.value), ".bmp"))
    ensures Iteration(s, o).0.Converted?
  {
    var name := UrlFileName(o.url.value);
    var cleaned := CleanupIfSet(s.entries, s.current, o.locked);
    var bmp := WithSuffix(name, ".bmp");
    assert Writable(cleaned, name) && Writable(cleaned, bmp);
    assert Writable(cleaned[name := RegularFile], bmp);
    AfterDownloadConverts(s.current, cleaned[name := RegularFile], name, o);
  }

  lemma AfterDownloadConverts(current: Option<string>, downloaded: map<string, Kind>, name: string, o: Outcome)
    requires name != [] && o.image.Some? && Positive(o.image.value) && o.encodeOk
    requires Writable(downloaded, WithSuffix(name, ".bmp"))
    ensures AfterDownload(current, downloaded, name, o).0.Converted?
  {
    var bmp := ConvertToBmp(name, o.screen, o.image, o.encodeOk);
    assert bmp.Some?;
    assert Writable(downloaded, bmp.value.name);
  }

  /** Whether Windows accepts the wallpaper changes the reported status and
      nothing else: the state is the same either way. */
  lemma ApplyResultOnlyReported(s: State, o: Outcome, applied: bool)
    ensures Iteration(s, o.(applied := applied)).1 == Iteration(s, o).1
  {
  }

  /** A failed URL request leaves everything as it was: the cleanup has not
      run yet. */
  lemma FetchFailureChangesNothing(s: State, o: Outcome)
    requires o.url.None?
    ensures Iteration(s, o) == (FetchFailed, s)
  {
  }

  /** Before the first conversion nothing is deleted. */
  lemma NoCleanupBeforeFirstConversion(s: State, o: Outcome)
    requires s.current.None?
    ensures forall n :: n in s.entries ==> n in Iteration(s, o).1.entries
  {
  }

  /** A BMP that Windows rejected is current all the same, so the next
      iteration's cleanup keeps it rather than the wallpaper actually on
      the desktop. */
  lemma {:induction false} RejectedBmpIsKept(s: State, rejected: Outcome, next: Outcome)
    requires Iteration(s, rejected).0 == Converted(false)
    requires next.url.Some?
    ensures var mid := Iteration(s, rejected).1;
      mid.current.value in Iteration(mid, next).1.entries
  {
    var mid := Iteration(s, rejected).1;
    ConvertedState(s, rejected);
    assert mid.current.value in mid.entries;
    KeptAcrossIteration(mid, next, mid.current.value);
  }

  /** Whatever survives the cleanup survives the rest of the iteration. */
  lemma {:induction false} KeptAcrossIteration(s: State, o: Outcome, n: string)
    requires o.url.Some?
    requires n in CleanupIfSet(s.entries, s.current, o.locked)
    ensures n in Iteration(s, o).1.entries
  {
  }

  /** A file gone after the cleanup reappears only if the iteration writes
      it again. */
  lemma {:induction false} NextIterationOnlyAdds(s: State, o: Outcome, n: string)
    requires o.url.Some?
    requires n !in CleanupIfSet(s.entries, s.current, o.locked)
    requires var name := UrlFileName(o.url.value);
      NamesDirectory(name) || (n != name && n != WithSuffix(name, ".bmp"))
    ensures n !in Iteration(s, o).1.entries
  {
  }

  /** After a conversion that follows an earlier one, the regular files left
      in the directory are the previous BMP, the new download, the new BMP
      and the files that could not be unlinked. */
  lemma {:induction false} RegularFilesAfterConversion(s: State, o: Outcome)
    requires s.current.Some?
    requires Iteration(s, o).0.Converted?
    ensures var r := Iteration(s, o).1; var name := UrlFileName(o.url.value);
      forall n :: n in r.entries && r.entries[n] == RegularFile ==>
        n == s.current.value || n == name || n == WithSuffix(name, ".bmp") || n in o.locked
  {
    ConvertedState(s, o);
  }

  /** `current_bmp` always names a `.bmp` file. */
  lemma {:induction false} CurrentIsBmp(s: State, o: Outcome)
    requires s.current.Some? ==> Suffix(s.current.value) == ".bmp"
    ensures var r := Iteration(s, o).1; r.current.Some? ==> Suffix(r.current.value) == ".bmp"
  {
    var r := Iteration(s, o);
    if r.0.Converted? {
      var name := UrlFileName(o.url.value);
      assert r.1.current == Some(WithSuffix(name, ".bmp"));
      SuffixOfWithSuffix(name, ".bmp");
    } else {
      assert r.1.current == s.current;
    }
  }

  /** `main_loop` of the Windows variant, one iteration at a time. */
  class WallpaperLoop {
    var current: Option<string>
    const dir: Directory

    constructor (dir: Directory)
      ensures this.dir == dir && current == None
    {
      this.dir := dir;
      current := None;
    }

    /** One pass through the loop body; whatever raises is caught, printed
        and reported in `status`. */
    method Step(o: Outcome) returns (status: Status)
      modifies this, dir
      ensures (status, State(current, dir.entries)) == Iteration(old(State(current, dir.entries)), o)
    {
      if o.url.None? {
        status := FetchFailed;
        return;
      }
      var name := UrlFileName(o.url.value);
      if current.Some? {
        dir.Cleanup(current.value, o.locked);
      }
      if !o.downloadOk {
        status := DownloadFailed;
        return;
      }
      var saved := dir.Write(name);
      if !saved {
        status := DownloadFailed;
        return;
      }
      var bmp := ConvertToBmp(name, o.screen, o.image, o.encodeOk);
      if bmp.None? {
        status := ConvertFailed;
        return;
      }
      saved := dir.Write(bmp.value.name);
      if !saved {
        status := ConvertFailed;
        return;
      }
      status := Converted(o.applied);
      current := Some(bmp.value.name);
    }
  }
}
