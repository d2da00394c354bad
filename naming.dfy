/** File names of the wallpaper changer: the downloaded file is named after
    the last segment of the image URL, and the fitted file is that path with
    its suffix replaced (`pathlib.PurePath.with_suffix`). Every file lives in
    the one wallpapers directory, so a path is modelled by its name there. */
module Naming {
  import opened Wrappers
  import opened PyStr

  /** `url.split("/")[-1]`: the text after the last slash, or the whole URL
      when it has none. */
  function UrlFileName(url: string): (name: string)
    ensures '/' !in name
    ensures |name| <= |url| && name == url[|url| - |name|..]
    ensures |name| < |url| ==> url[|url| - |name| - 1] == '/'
  {
    var parts := SplitOn(url, '/');
    if |parts| >= 2 then
      JoinOnLast(parts, '/');
      parts[|parts| - 1]
    else
      parts[0]
  }

  /** The name is exactly what follows the last slash. */
  lemma UrlFileNameAfterLastSlash(base: string, name: string)
    requires '/' !in name
    ensures UrlFileName(base + "/" + name) == name
  {
    var url := base + "/" + name;
    var r := UrlFileName(url);
    assert url[|base|] == '/';
    assert |r| <= |name|;
    assert url[|url| - |name|..] == name;
  }

  /** A save path `wallpapers_dir / name` that is a directory rather than a
      file inside it: `""` and `"."` name the wallpapers directory itself,
      `".."` its parent. Writing the download to it raises. */
  predicate NamesDirectory(name: string) {
    name == "" || name == "." || name == ".."
  }

  /** `name.rfind('.')`, None where Python returns -1. */
  function LastDot(name: string): (r: Option<nat>)
    ensures r.None? <==> '.' !in name
    ensures r.Some? ==> r.value < |name| && name[r.value] == '.' && '.' !in name[r.value + 1..]
  {
    if name == [] then None
    else if name[|name| - 1] == '.' then Some(|name| - 1)
    else
      var init := name[..|name| - 1];
      var last := name[|name| - 1];
      var r := LastDot(init);
      assert name == init + [last];
      assert '.' in name <==> '.' in init;
      if r.Some? then
        assert name[r.value + 1..] == init[r.value + 1..] + [last];
        r
      else r
  }

  /** A dot with no dot after it is the one `LastDot` finds. */
  lemma LastDotIsTheDot(name: string)
    ensures forall i :: 0 <= i < |name| && name[i] == '.' && '.' !in name[i + 1..] ==> LastDot(name) == Some(i)
  {
    forall i | 0 <= i < |name| && name[i] == '.' && '.' !in name[i + 1..]
      ensures LastDot(name) == Some(i)
    {
      assert '.' in name;
    }
  }

  /** `PurePath.suffix`: the name from its last dot on, provided that dot
      neither starts nor ends the name; otherwise empty. */
  function Suffix(name: string): (r: string)
    ensures r == [] || (2 <= |r| < |name| && r[0] == '.' && '.' !in r[1..] && r == name[|name| - |r|..])
    ensures r != [] <==> exists i :: 0 < i < |name| - 1 && name[i] == '.' && '.' !in name[i + 1..]
  {
    LastDotIsTheDot(name);
    match LastDot(name)
    case Some(i) =>
      if 0 < i < |name| - 1 then
        assert name[i..][1..] == name[i + 1..];
        name[i..]
      else []
    case None => []
  }

  /** The suffix of a typical download name. */
  lemma SuffixExample()
    ensures Suffix("photo.png") == ".png"
  {
    var n := "photo.png";
    assert n[5] == '.' && n[6..] == "png";
    LastDotIsTheDot(n);
    assert LastDot(n) == Some(5);
    assert n[5..] == ".png";
  }

  /** A suffix `with_suffix` accepts: empty, or a dot followed by something,
      never containing the path separator. */
  predicate AcceptedSuffix(suffix: string) {
    '/' !in suffix && (suffix == [] || (suffix[0] == '.' && suffix != "."))
  }

  /** A single extension such as ".jpg": one leading dot, at least one more
      character, no other dot. */
  predicate SimpleExtension(suffix: string) {
    AcceptedSuffix(suffix) && |suffix| >= 2 && '.' !in suffix[1..]
  }

  /** `PurePath.with_suffix`: the old suffix (if any) is replaced by `suffix`,
      the rest of the name is kept and the directory does not change. */
  function WithSuffix(name: string, suffix: string): (r: string)
    requires name != []
    requires AcceptedSuffix(suffix)
    ensures |r| >= |suffix| && r[|r| - |suffix|..] == suffix
    ensures var stem := r[..|r| - |suffix|]; stem != [] && stem + Suffix(name) == name
    ensures '/' !in name ==> '/' !in r
  {
    var stem := name[..|name| - |Suffix(name)|];
    assert stem + Suffix(name) == name;
    var r := stem + suffix;
    assert r[..|r| - |suffix|] == stem;
    r
  }

  /** The last dot of `stem + ext` is the one that starts `ext`. */
  lemma LastDotOfExtension(stem: string, ext: string)
    requires SimpleExtension(ext)
    ensures LastDot(stem + ext) == Some(|stem|)
  {
    var n := stem + ext;
    assert n[|stem|] == '.';
  }

  /** The fitted file's suffix is the extension it was given. */
  lemma {:induction false} SuffixOfWithSuffix(name: string, ext: string)
    requires name != [] && SimpleExtension(ext)
    ensures Suffix(WithSuffix(name, ext)) == ext
  {
    var r := WithSuffix(name, ext);
    var stem := r[..|r| - |ext|];
    assert r == stem + ext;
    LastDotOfExtension(stem, ext);
  }

  /** A name that already has the extension is its own replacement: the
      fitted file then takes the place of the download. */
  lemma {:induction false} WithOwnSuffix(name: string, ext: string)
    requires name != [] && AcceptedSuffix(ext) && Suffix(name) == ext
    ensures WithSuffix(name, ext) == name
  {
    var r := WithSuffix(name, ext);
    var stem := r[..|r| - |ext|];
    assert r == stem + ext;
  }

  /** Replacing the extension a second time changes nothing. */
  lemma {:induction false} WithSuffixIdempotent(name: string, ext: string)
    requires name != [] && SimpleExtension(ext)
    ensures WithSuffix(WithSuffix(name, ext), ext) == WithSuffix(name, ext)
  {
    var r := WithSuffix(name, ext);
    SuffixOfWithSuffix(name, ext);
    var r2 := WithSuffix(r, ext);
    var stem2 := r2[..|r2| - |ext|];
    assert stem2 + ext == r;
    assert r2 == stem2 + ext;
  }
}
