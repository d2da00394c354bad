/** The KDE Plasma variant: `resize_image`, `set_kde_wallpaper` and one
    iteration of `main_loop`. The network, PIL, `xrandr` and `qdbus` are
    outside the model; what they do in an iteration is given as an
    `Outcome`. */
module Kde {
  import opened Wrappers
  import opened PyStr
  import opened Naming
  import opened Letterbox
  import opened Resolution
  import opened WallpaperDir

  /** What the outside world does during one iteration. */
  datatype Outcome = Outcome(
    url: Option<string>,           // `get_new_wallpaper_url`: None when the request, the status or the JSON lookup fails
    locked: set<string>,           // entries whose unlink raises during the cleanup
    downloadOk: bool,              // the GET of the image and the write of its bytes
    xrandr: Option<seq<string>>,   // the lines `xrandr` prints; None when it is missing, fails or does not decode
    image: Option<Size>,           // the size PIL decodes; None when it cannot open the file
    encodeOk: bool,                // the resize, the paste and the JPEG save succeed
    clearOk: bool,                 // exit status of the clearing script
    setOk: bool)                   // exit status of the script that sets the image

  /** How an iteration ended; every failure is caught and printed. */
  datatype Status = Updated | FetchFailed | DownloadFailed | ResizeFailed | SetFailed

  /** `resize_image(src)`: the screen size read from `xrandr` (or the
      default), the letterbox of the image on it, saved as JPEG next to the
      source under the same name with the suffix `.jpg`. None where it
      raises: PIL cannot open or save the image, or a side of zero pixels
      divides by zero in `width / img.width`. */
  function ResizeImage(src: string, xrandr: Option<seq<string>>, image: Option<Size>, encodeOk: bool): (r: Option<Fitted>)
    requires src != []
    ensures r.Some? <==> image.Some? && Positive(image.value) && encodeOk
    ensures r.Some? ==> r.value.canvas == ParseResolution(xrandr) && r.value.source == image.value
    ensures r.Some? ==> r.value.name == WithSuffix(src, ".jpg") && Suffix(r.value.name) == ".jpg"
    ensures r.Some? && '/' !in src ==> '/' !in r.value.name
  {
    match image
    case Some(size) =>
      if Positive(size) && encodeOk then
        SuffixOfWithSuffix(src, ".jpg");
        Some(Fitted(WithSuffix(src, ".jpg"), ParseResolution(xrandr), size))
      else None
    case None => None
  }

  /** The saved image is the letterbox of the source on a canvas of the
      screen size: on a positive screen nothing is cropped and the bars are
      centred. */
  lemma {:induction false} SavedImageIsLetterboxed(src: string, xrandr: Option<seq<string>>, image: Option<Size>, encodeOk: bool)
    requires src != []
    requires ResizeImage(src, xrandr, image, encodeOk).Some?
    requires Positive(ResizeImage(src, xrandr, image, encodeOk).value.canvas)
    ensures var f := ResizeImage(src, xrandr, image, encodeOk).value;
      f.Drawn().canvas == f.canvas && Inside(f.Drawn()) && Centred(f.Drawn())
  {
    var f := ResizeImage(src, xrandr, image, encodeOk).value;
    assert Positive(f.source);
  }

  /** The loop's state: the wallpaper currently set (`current_wallpaper`)
      and the wallpapers directory. */
  datatype State = State(current: Option<string>, entries: map<string, Kind>)

  /** One pass through the body of `main_loop`'s `while True`. */
  function Iteration(s: State, o: Outcome): (r: (Status, State))
    ensures r.0 == Updated ==>
      && o.url.Some? && !NamesDirectory(UrlFileName(o.url.value))
      && o.downloadOk && o.image.Some? && Positive(o.image.value) && o.encodeOk && o.setOk
    ensures r.0 != Updated ==> r.1.current == s.current
    ensures r.0 == Updated ==> r.1.current == Some(WithSuffix(UrlFileName(o.url.value), ".jpg"))
  {
    match o.url
    case None => (FetchFailed, s)
    case Some(url) =>
      var name := UrlFileName(url);
      var cleaned := CleanupIfSet(s.entries, s.current, o.locked);
      if !o.downloadOk || !Writable(cleaned, name) then (DownloadFailed, State(s.current, cleaned))
      else AfterDownload(s.current, cleaned[name := RegularFile], name, o)
  }

  /** The rest of the loop body once the image is saved as `name`:
      `resize_image` and `set_kde_wallpaper`. */
  function AfterDownload(current: Option<string>, downloaded: map<string, Kind>, name: string, o: Outcome): (r: (Status, State))
    requires name != []
    ensures r.0 == Updated ==> o.image.Some? && Positive(o.image.value) && o.encodeOk && o.setOk
    ensures r.0 != Updated ==> r.1.current == current
    ensures r.0 == Updated ==> r.1 == State(Some(WithSuffix(name, ".jpg")), downloaded[WithSuffix(name, ".jpg") := RegularFile])
  {
    match ResizeImage(name, o.xrandr, o.image, o.encodeOk)
    case None => (ResizeFailed, State(current, downloaded))
    case Some(fitted) =>
      if !Writable(downloaded, fitted.name) then (ResizeFailed, State(current, downloaded))
      else
        var written := downloaded[fitted.name := RegularFile];
        // `set_kde_wallpaper` runs the clearing script with check=False, so
        // only the setting script's exit status can raise
        if !o.setOk then (SetFailed, State(current, written))
        else (Updated, State(Some(fitted.name), written))
  }

  /** The state an update leaves: the previous wallpaper kept by the
      cleanup, then the download and the fitted file written. */
  lemma {:induction false} UpdatedState(s: State, o: Outcome)
    requires Iteration(s, o).0 == Updated
    ensures var name := UrlFileName(o.url.value); var fitted := WithSuffix(name, ".jpg");
      Iteration(s, o).1 == State(Some(fitted), CleanupIfSet(s.entries, s.current, o.locked)[name := RegularFile][fitted := RegularFile])
  {
  }

  /** The converse of the first property of Iteration: when every outside
      step succeeds and neither file name is taken by a subdirectory, the
      wallpaper is updated. */
  lemma {:induction false} UpdatesWhenAllSucceed(s: State, o: Outcome)
    requires o.url.Some? && o.downloadOk && o.image.Some? && Positive(o.image.value) && o.encodeOk && o.setOk
    requires Writable(s.entries, UrlFileName(o.url.value))
    requires Writable(s.entries, WithSuffix(UrlFileName(o.url.value), ".jpg"))
    ensures Iteration(s, o).0 == Updated
  {
    var name := UrlFileName(o.url.value);
    var cleaned := CleanupIfSet(s.entries, s.current, o.locked);
    var fitted := WithSuffix(name, ".jpg");
    assert Writable(cleaned, name) && Writable(cleaned, fitted);
    assert Writable(cleaned[name := RegularFile], fitted);
    AfterDownloadUpdates(s.current, cleaned[name := RegularFile], name, o);
  }

  lemma AfterDownloadUpdates(current: Option<string>, downloaded: map<string, Kind>, name: string, o: Outcome)
    requires name != [] && o.image.Some? && Positive(o.image.value) && o.encodeOk && o.setOk
    requires Writable(downloaded, WithSuffix(name, ".jpg"))
    ensures AfterDownload(current, downloaded, name, o).0 == Updated
  {
    var fitted := ResizeImage(name, o.xrandr, o.image, o.encodeOk);
    assert fitted.Some?;
    assert Writable(downloaded, fitted.value.name);
  }

  /** The clearing script's exit status has no effect on anything. */
  lemma ClearingStatusIgnored(s: State, o: Outcome, clearOk: bool)
    ensures Iteration(s, o.(clearOk := clearOk)) == Iteration(s, o)
  {
  }

  /** A failed URL request leaves everything as it was: the cleanup has not
      run yet. */
  lemma FetchFailureChangesNothing(s: State, o: Outcome)
    requires o.url.None?
    ensures Iteration(s, o) == (FetchFailed, s)
  {
  }

  /** Before the first wallpaper is set nothing is deleted. */
  lemma NoCleanupBeforeFirstWallpaper(s: State, o: Outcome)
    requires s.current.None?
    ensures forall n :: n in s.entries ==> n in Iteration(s, o).1.entries
  {
  }

  /** Whatever survives the cleanup survives the rest of the iteration,
      whichever later step fails. */
  lemma {:induction false} KeptAcrossIteration(s: State, o: Outcome, n: string)
    requires o.url.Some?
    requires n in CleanupIfSet(s.entries, s.current, o.locked)
    ensures n in Iteration(s, o).1.entries
  {
  }

  /** A file gone after the cleanup reappears only if the iteration writes
      it again. */
  lemma {:induction false} NextIterationOnlyAdds(s: State, o: Outcome, n: string)
    requires o.url.Some?
    requires n !in CleanupIfSet(s.entries, s.current, o.locked)
    requires var name := UrlFileName(o.url.value);
      NamesDirectory(name) || (n != name && n != WithSuffix(name, ".jpg"))
    ensures n !in Iteration(s, o).1.entries
  {
  }

  /** When only the setting script fails, the cleanup has run and both the
      download and the fitted JPEG stay in the directory, while the
      wallpaper reference is unchanged. */
  lemma {:induction false} SetFailureKeepsFiles(s: State, o: Outcome)
    requires Iteration(s, o).0 == SetFailed
    ensures var r := Iteration(s, o).1; var name := UrlFileName(o.url.value);
      && r.current == s.current
      && r.entries == CleanupIfSet(s.entries, s.current, o.locked)[name := RegularFile][WithSuffix(name, ".jpg") := RegularFile]
  {
  }

  /** The cleanup runs before the download: after an update the new download
      and the new fitted file are both in the directory, and so is the
      previous wallpaper, which the cleanup keeps. */
  lemma {:induction false} CleanupBeforeDownload(s: State, o: Outcome)
    requires Iteration(s, o).0 == Updated
    ensures var r := Iteration(s, o).1; var name := UrlFileName(o.url.value);
      && name in r.entries && r.entries[name] == RegularFile
      && WithSuffix(name, ".jpg") in r.entries && r.entries[WithSuffix(name, ".jpg")] == RegularFile
      && (s.current.Some? && s.current.value in s.entries ==> s.current.value in r.entries)
  {
    UpdatedState(s, o);
  }

  /** After an update that follows an earlier one, the regular files left in
      the directory are the previous wallpaper, the new download, the new
      fitted file and the files that could not be unlinked. */
  lemma {:induction false} RegularFilesAfterUpdate(s: State, o: Outcome)
    requires s.current.Some?
    requires Iteration(s, o).0 == Updated
    ensures var r := Iteration(s, o).1; var name := UrlFileName(o.url.value);
      forall n :: n in r.entries && r.entries[n] == RegularFile ==>
        n == s.current.value || n == name || n == WithSuffix(name, ".jpg") || n in o.locked
  {
    UpdatedState(s, o);
  }

  /** Two updates in a row leave two fitted wallpapers in the directory: the
      one set by the first iteration is the file the second one's cleanup
      keeps, so it is deleted only by the third. */
  lemma {:induction false} TwoUpdatesKeepTwoWallpapers(s: State, first: Outcome, second: Outcome)
    requires Iteration(s, first).0 == Updated
    requires Iteration(Iteration(s, first).1, second).0 == Updated
    ensures var mid := Iteration(s, first).1; var end := Iteration(mid, second).1;
      && mid.current.value in end.entries && end.current.value in end.entries
  {
    var mid := Iteration(s, first).1;
    CleanupBeforeDownload(s, first);
    CleanupBeforeDownload(mid, second);
  }

  /** The wallpaper reference always names a `.jpg` file. */
  lemma {:induction false} CurrentIsJpeg(s: State, o: Outcome)
    requires s.current.Some? ==> Suffix(s.current.value) == ".jpg"
    ensures var r := Iteration(s, o).1; r.current.Some? ==> Suffix(r.current.value) == ".jpg"
  {
    var r := Iteration(s, o);
    if r.0 == Updated {
      var name := UrlFileName(o.url.value);
      assert r.1.current == Some(WithSuffix(name, ".jpg"));
      SuffixOfWithSuffix(name, ".jpg");
    } else {
      assert r.1.current == s.current;
    }
  }

  /** `main_loop` of the KDE variant, one iteration at a time. */
  class WallpaperLoop {
    var current: Option<string>
    const dir: Directory

    constructor (dir: Directory)
      ensures this.dir == dir && current == None
    {
      this.dir := dir;
      current := None;
    }

    /** One pass through the loop body; whatever fails is caught, printed
        and reported in `status`. */
    method Step(o: Outcome) returns (status: Status)
      modifies this, dir
      ensures (status, State(current, dir.entries)) == Iteration(old(State(current, dir.entries)), o)
    {
      if o.url.None? {
        status := FetchFailed;
        return;
      }
      var name := UrlFileName(o.url.value);
      if current.Some? {
        dir.Cleanup(current.value, o.locked);
      }
      if !o.downloadOk {
        status := DownloadFailed;
        return;
      }
      var saved := dir.Write(name);
      if !saved {
        status := DownloadFailed;
        return;
      }
      var fitted := ResizeImage(name, o.xrandr, o.image, o.encodeOk);
      if fitted.None? {
        status := ResizeFailed;
        return;
      }
      saved := dir.Write(fitted.value.name);
      if !saved {
        status := ResizeFailed;
        return;
      }
      // the clearing script runs first; its exit status is not checked
      if !o.setOk {
        status := SetFailed;
        return;
      }
      current := Some(fitted.value.name);
      status := Updated;
    }
  }
}
