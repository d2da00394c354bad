/** The screen-size query at the top of `resize_image` (KDE variant): the
    output of `xrandr` is scanned line by line, the first line containing a
    `*` is split into whitespace-separated tokens, and the integers one and
    three tokens after the first `current` token are taken as width and
    height, commas removed from the height. Whatever goes wrong, the result
    is 1920x1080; the function never raises. */
module Resolution {
  import opened Wrappers
  import opened PyStr
  import opened Letterbox

  /** The size assumed when the query fails. */
  const DefaultSize := Size(1920, 1080)

  /** Position of the first line that contains a `*`. */
  function FirstStarred(lines: seq<string>): (r: Option<nat>)
    ensures r.None? <==> forall k :: 0 <= k < |lines| ==> '*' !in lines[k]
    ensures r.Some? ==> r.value < |lines| && '*' in lines[r.value]
    ensures r.Some? ==> forall k :: 0 <= k < r.value ==> '*' !in lines[k]
  {
    if lines == [] then None
    else if '*' in lines[0] then Some(0)
    else
      match FirstStarred(lines[1..])
      case None => None
      case Some(k) => Some(k + 1)
  }

  /** The body of the `try` applied to the starred line: None where Python
      raises (no `current` token, too few tokens after it, a token that is
      not an integer). */
  function ParseModeLine(line: string): (r: Option<Size>)
    ensures r.Some? ==> "current" in Split(line)
  {
    ParseTokens(Split(line))
  }

  /** The same, on the tokens of the line. */
  function ParseTokens(parts: seq<string>): Option<Size> {
    match IndexOf(parts, "current")
    case None => None
    case Some(i) =>
      if i + 3 < |parts| then
        match (ParseInt(parts[i + 1]), ParseInt(Without(parts[i + 3], ',')))
        case (Some(w), Some(h)) => Some(Size(w, h))
        case _ => None
      else None
  }

  /** The screen size `resize_image` works with, given the lines `xrandr`
      printed, or None when the command is missing, fails or prints text
      that does not decode. */
  function ParseResolution(output: Option<seq<string>>): (r: Size)
    ensures output.None? ==> r == DefaultSize
    ensures output.Some? && (forall k :: 0 <= k < |output.value| ==> '*' !in output.value[k]) ==> r == DefaultSize
  {
    match output
    case None => DefaultSize
    case Some(lines) =>
      match FirstStarred(lines)
      case None => DefaultSize
      case Some(k) => ParseModeLine(lines[k]).GetOr(DefaultSize)
  }

  /** Only the first starred line is looked at: lines before it have no
      star, and whatever follows it is ignored. */
  lemma {:induction false} OnlyFirstStarredLineCounts(before: seq<string>, line: string, after: seq<string>)
    requires forall k :: 0 <= k < |before| ==> '*' !in before[k]
    requires '*' in line
    ensures ParseResolution(Some(before + [line] + after)) == ParseModeLine(line).GetOr(DefaultSize)
  {
    var lines := before + [line] + after;
    assert lines[|before|] == line;
    var k := FirstStarred(lines).value;
    assert forall j :: 0 <= j < |before| ==> lines[j] == before[j];
  }

  /** `parts.index('current')` finds the first `current`. */
  lemma FirstCurrent(parts: seq<string>, before: seq<string>, rest: seq<string>)
    requires parts == before + ["current"] + rest
    requires "current" !in before
    ensures IndexOf(parts, "current") == Some(|before|)
  {
    assert parts[|before|] == "current";
    assert parts[..|before|] == before;
  }

  lemma {:induction false} TokensAfterCurrent(parts: seq<string>, before: seq<string>, widthToken: string,
                                               between: string, heightToken: string, after: seq<string>)
    requires parts == before + ["current", widthToken, between, heightToken] + after
    requires "current" !in before
    ensures ParseTokens(parts) ==
      match (ParseInt(widthToken), ParseInt(Without(heightToken, ',')))
      case (Some(w), Some(h)) => Some(Size(w, h))
      case _ => None
  {
    var rest := [widthToken, between, heightToken] + after;
    assert parts == before + ["current"] + rest;
    FirstCurrent(parts, before, rest);
    var i := |before|;
    assert parts[i + 1] == widthToken && parts[i + 3] == heightToken;
  }

  /** Reading the size: width is the token right after the first `current`,
      height the token three after it with every comma dropped. */
  lemma {:induction false} ReadsTokensAfterCurrent(line: string, before: seq<string>, widthToken: string,
                                                    between: string, heightToken: string, after: seq<string>,
                                                    width: int, height: int)
    requires Split(line) == before + ["current", widthToken, between, heightToken] + after
    requires "current" !in before
    requires widthToken == Show(width)
    requires Without(heightToken, ',') == Show(height)
    ensures ParseModeLine(line) == Some(Size(width, height))
  {
    TokensAfterCurrent(Split(line), before, widthToken, between, heightToken, after);
    ParseShow(width);
    ParseShow(height);
  }

  /** A comma in the width token (it is not stripped) makes the line
      unreadable. */
  lemma {:induction false} CommaInWidthFails(line: string, before: seq<string>, widthToken: string, after: seq<string>)
    requires Split(line) == before + ["current", widthToken] + after
    requires "current" !in before
    requires ',' in widthToken
    ensures ParseModeLine(line) == None
  {
    CommaTokenFails(Split(line), before, widthToken, after);
  }

  lemma CommaTokenFails(parts: seq<string>, before: seq<string>, widthToken: string, after: seq<string>)
    requires parts == before + ["current", widthToken] + after
    requires "current" !in before
    requires ',' in widthToken
    ensures ParseTokens(parts) == None
  {
    var rest := [widthToken] + after;
    assert parts == before + ["current"] + rest;
    FirstCurrent(parts, before, rest);
    assert parts[|before| + 1] == widthToken;
    var j :| 0 <= j < |widthToken| && widthToken[j] == ',';
    assert ParseInt(widthToken).None?;
  }

  /** Fewer than three tokens after the first `current`: the index is out
      of range and the line is unreadable. */
  lemma {:induction false} TooFewTokensFails(line: string, before: seq<string>, rest: seq<string>)
    requires Split(line) == before + ["current"] + rest
    requires "current" !in before
    requires |rest| < 3
    ensures ParseModeLine(line) == None
  {
    FirstCurrent(Split(line), before, rest);
  }

  /** A line without the letter `u` has no `current` token. */
  lemma NoCurrentWithoutU(line: string)
    requires 'u' !in line
    ensures ParseModeLine(line) == None
  {
    SplitAvoids(line, 'u');
    assert "current"[1] == 'u';
  }

  /** In what `xrandr` prints, the line with the star is the mode line of the
      active resolution (such as `   2560x1440     59.95*+`), which has no
      letter `u` and so no `current` token; the screen summary line that does
      carry `current 2560 x 1440,` has no star. On such output the result is
      the default size, whatever the actual screen is. */
  lemma {:induction false} StarredModeLineFallsBack(before: seq<string>, modeLine: string, after: seq<string>)
    requires forall k :: 0 <= k < |before| ==> '*' !in before[k]
    requires '*' in modeLine && 'u' !in modeLine
    ensures ParseResolution(Some(before + [modeLine] + after)) == DefaultSize
  {
    OnlyFirstStarredLineCounts(before, modeLine, after);
    NoCurrentWithoutU(modeLine);
  }
}
