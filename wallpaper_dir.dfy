/** The wallpapers directory and `cleanup_old_wallpapers`, which is the same
    in both variants: every entry of the directory that is a regular file
    and is not `keep_file` is unlinked; an unlink that raises is reported
    and skipped, so the cleanup itself never raises. */
module WallpaperDir {
  import opened Wrappers
  import opened Naming

  /** An entry of the directory: `Path.is_file()` holds of a regular file
      and not of a subdirectory. */
  datatype Kind = RegularFile | Subdirectory

  /** `open(dir / name, 'wb')` succeeds: the path is neither the directory
      itself (or its parent) nor one of its subdirectories. */
  predicate Writable(entries: map<string, Kind>, name: string) {
    !NamesDirectory(name) && !(name in entries && entries[name] == Subdirectory)
  }

  /** The cleanup removes this entry: a regular file other than the one to
      keep, whose unlink succeeds. */
  predicate Removed(entries: map<string, Kind>, keep: string, locked: set<string>, name: string) {
    name in entries && name != keep && entries[name] == RegularFile && name !in locked
  }

  /** The directory after the cleanup has visited the entries in `visited`. */
  function CleanedSoFar(entries: map<string, Kind>, keep: string, locked: set<string>, visited: set<string>): map<string, Kind> {
    map n | n in entries && !(n in visited && Removed(entries, keep, locked, n)) :: entries[n]
  }

  /** The directory after `cleanup_old_wallpapers(dir, keep)`, where `locked`
      holds the entries whose unlink raises. */
  function AfterCleanup(entries: map<string, Kind>, keep: string, locked: set<string>): (r: map<string, Kind>)
    ensures forall n :: n in r ==> n in entries && r[n] == entries[n]
    ensures keep in entries ==> keep in r
    ensures forall n :: n in entries && entries[n] == Subdirectory ==> n in r
    ensures forall n :: n in entries && n in locked ==> n in r
    ensures forall n :: n in entries && n != keep && entries[n] == RegularFile && n !in locked ==> n !in r
  {
    CleanedSoFar(entries, keep, locked, entries.Keys)
  }

  /** `if current: cleanup_old_wallpapers(dir, current)`: the cleanup runs
      only once a wallpaper has been set. */
  function CleanupIfSet(entries: map<string, Kind>, current: Option<string>, locked: set<string>): map<string, Kind> {
    match current
    case None => entries
    case Some(keep) => AfterCleanup(entries, keep, locked)
  }

  /** Cleaning twice with the same file to keep removes nothing more. */
  lemma CleanupIdempotent(entries: map<string, Kind>, keep: string, locked: set<string>)
    ensures AfterCleanup(AfterCleanup(entries, keep, locked), keep, locked) == AfterCleanup(entries, keep, locked)
  {
    var once := AfterCleanup(entries, keep, locked);
    var twice := AfterCleanup(once, keep, locked);
    assert twice.Keys == once.Keys;
  }

  /** After a cleanup in which every unlink succeeds, the only regular file
      left is the one to keep. */
  lemma CleanupLeavesOnlyKeep(entries: map<string, Kind>, keep: string)
    ensures var r := AfterCleanup(entries, keep, {});
      forall n :: n in r && r[n] == RegularFile ==> n == keep
  {
  }

  /** The wallpapers directory: its entries by name. */
  class Directory {
    var entries: map<string, Kind>

    constructor (initial: map<string, Kind>)
      ensures entries == initial
    {
      entries := initial;
    }

    /** A file written into the directory (the download, the fitted image);
        an existing file of that name is overwritten. `ok` is false where
        opening the path for writing raises. */
    method Write(name: string) returns (ok: bool)
      modifies this
      ensures ok <==> Writable(old(entries), name)
      ensures entries == if ok then old(entries)[name := RegularFile] else old(entries)
    {
      ok := !NamesDirectory(name) && !(name in entries && entries[name] == Subdirectory);
      if ok {
        entries := entries[name := RegularFile];
      }
    }

    /** `cleanup_old_wallpapers(self, keep)`: visits every entry once, in the
        arbitrary order `iterdir` yields them. */
    method Cleanup(keep: string, locked: set<string>)
      modifies this
      ensures entries == AfterCleanup(old(entries), keep, locked)
    {
      var pending := entries.Keys;
      ghost var visited: set<string> := {};
      while pending != {}
        invariant pending + visited == old(entries).Keys
        invariant pending !! visited
        invariant entries == CleanedSoFar(old(entries), keep, locked, visited)
        decreases pending
      {
        var name :| name in pending;
        assert name in entries;
        if name != keep && entries[name] == RegularFile {
          if name !in locked {
            entries := entries - {name};
          }
          // otherwise the failed unlink is reported and the loop goes on
        }
        pending := pending - {name};
        visited := visited + {name};
      }
    }
  }
}
