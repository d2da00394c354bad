/** The Python string built-ins the wallpaper changer relies on: `str.split()`
    without a separator, `list.index`, `str.replace(c, "")`, `int()` on a
    decimal token and `str.split(sep)`. */
module PyStr {
  import opened Wrappers

  /** Python's `str.isspace()` for one character. */
  predicate IsSpace(c: char) {
    || ('\t' <= c <= '\r')
    || ('\U{1C}' <= c <= ' ')
    || c == '\U{85}' || c == '\U{A0}' || c == '\U{1680}'
    || ('\U{2000}' <= c <= '\U{200A}')
    || c == '\U{2028}' || c == '\U{2029}' || c == '\U{202F}' || c == '\U{205F}' || c == '\U{3000}'
  }

  /** A token of `str.split()`: non-empty and free of whitespace. */
  predicate IsWord(w: string) {
    w != [] && forall i :: 0 <= i < |w| ==> !IsSpace(w[i])
  }

  /** What is left of `s` once its leading whitespace is dropped. */
  function SkipSpaces(s: string): (t: string)
    ensures |t| <= |s| && t == s[|s| - |t|..]
    ensures forall i :: 0 <= i < |s| - |t| ==> IsSpace(s[i])
    ensures t == [] || !IsSpace(t[0])
  {
    if s != [] && IsSpace(s[0]) then SkipSpaces(s[1..]) else s
  }

  /** The longest whitespace-free prefix of `s`. */
  function Word(s: string): (w: string)
    ensures |w| <= |s| && w == s[..|w|]
    ensures forall i :: 0 <= i < |w| ==> !IsSpace(w[i])
    ensures |w| == |s| || IsSpace(s[|w|])
  {
    if s == [] || IsSpace(s[0]) then [] else [s[0]] + Word(s[1..])
  }

  /** `s.split()`: the maximal runs of non-whitespace, in order. */
  function Split(s: string): (parts: seq<string>)
    ensures forall k :: 0 <= k < |parts| ==> IsWord(parts[k])
    decreases |s|
  {
    var t := SkipSpaces(s);
    if t == [] then []
    else
      var w := Word(t);
      assert |w| > 0;
      var rest := Split(t[|w|..]);
      assert IsWord(w);
      assert forall k :: 0 < k < |rest| + 1 ==> ([w] + rest)[k] == rest[k - 1];
      [w] + rest
  }

  /** One step of `Split`: the first word, then the split of what follows it. */
  lemma SplitStep(s: string)
    requires SkipSpaces(s) != []
    ensures var t := SkipSpaces(s); var w := Word(t);
      0 < |w| && Split(s) == [w] + Split(t[|w|..])
  {
  }

  lemma {:induction false} SkipSpacesAvoids(s: string, c: char)
    requires c !in s
    ensures c !in SkipSpaces(s)
  {
    if s != [] && IsSpace(s[0]) {
      assert s == [s[0]] + s[1..];
      SkipSpacesAvoids(s[1..], c);
    }
  }

  lemma {:induction false} WordAvoids(s: string, c: char)
    requires c !in s
    ensures c !in Word(s) && c !in s[|Word(s)|..]
  {
    if s != [] && !IsSpace(s[0]) {
      assert s == [s[0]] + s[1..];
      WordAvoids(s[1..], c);
      assert s[|Word(s)|..] == s[1..][|Word(s[1..])|..];
    }
  }

  /** A character that does not occur in `s` occurs in none of its tokens. */
  lemma {:induction false} SplitAvoids(s: string, c: char)
    requires c !in s
    ensures forall k :: 0 <= k < |Split(s)| ==> c !in Split(s)[k]
    decreases |s|
  {
    var t := SkipSpaces(s);
    if t != [] {
      SkipSpacesAvoids(s, c);
      WordAvoids(t, c);
      var w := Word(t);
      var u := t[|w|..];
      SplitStep(s);
      SplitAvoids(u, c);
      ConsAvoids(w, Split(u), c);
    }
  }

  lemma ConsAvoids(w: string, q: seq<string>, c: char)
    requires c !in w
    requires forall k :: 0 <= k < |q| ==> c !in q[k]
    ensures forall k :: 0 <= k < |[w] + q| ==> c !in ([w] + q)[k]
  {
    forall k | 0 <= k < |[w] + q| ensures c !in ([w] + q)[k] {
      if k > 0 { assert ([w] + q)[k] == q[k - 1]; }
    }
  }

  /** A run of whitespace, possibly empty. */
  predicate AllSpace(g: string) {
    forall i :: 0 <= i < |g| ==> IsSpace(g[i])
  }

  /** The words laid out with the gaps around them: `gaps[0]` before the
      first word, `gaps[k]` between words k-1 and k, the last gap after the
      last word. */
  function Spaced(words: seq<string>, gaps: seq<string>): string
    requires |gaps| == |words| + 1
    decreases |words|
  {
    if words == [] then gaps[0] else gaps[0] + words[0] + Spaced(words[1..], gaps[1..])
  }

  /** Text as `split()` sees it: words, whitespace runs around them, and at
      least one whitespace character between two words. */
  predicate WellSpaced(words: seq<string>, gaps: seq<string>) {
    && |gaps| == |words| + 1
    && (forall k :: 0 <= k < |words| ==> IsWord(words[k]))
    && (forall k :: 0 <= k < |gaps| ==> AllSpace(gaps[k]))
    && (forall k :: 0 < k < |words| ==> gaps[k] != [])
  }

  lemma {:induction false} SkipLeadingSpace(g: string, rest: string)
    requires AllSpace(g)
    ensures SkipSpaces(g + rest) == SkipSpaces(rest)
    decreases |g|
  {
    if g != [] {
      var x := g + rest;
      var g' := g[1..];
      assert x[0] == g[0];
      assert x[1..] == g' + rest;
      assert SkipSpaces(x) == SkipSpaces(g' + rest);
      assert AllSpace(g') by {
        forall i | 0 <= i < |g'| ensures IsSpace(g'[i]) {
          assert g'[i] == g[i + 1];
        }
      }
      SkipLeadingSpace(g', rest);
    } else {
      assert g + rest == rest;
    }
  }

  lemma {:induction false} WordOfWord(w: string, rest: string)
    requires IsWord(w)
    requires rest == [] || IsSpace(rest[0])
    ensures Word(w + rest) == w
    decreases |w|
  {
    if |w| > 1 {
      assert (w + rest)[1..] == w[1..] + rest;
      WordOfWord(w[1..], rest);
    } else {
      assert (w + rest)[1..] == rest;
    }
  }

  /** What follows a word in well-spaced text is empty or starts with
      whitespace. */
  lemma {:induction false} SpacedStart(words: seq<string>, gaps: seq<string>)
    requires WellSpaced(words, gaps)
    ensures var t := Spaced(words, gaps); t == [] || IsSpace(t[0]) || (gaps[0] == [] && words != [])
  {
    if words != [] && gaps[0] != [] {
      assert Spaced(words, gaps)[0] == gaps[0][0];
    } else if words == [] && gaps[0] != [] {
      assert Spaced(words, gaps) == gaps[0];
    }
  }

  lemma {:induction false} SpacedTail(words: seq<string>, gaps: seq<string>)
    requires WellSpaced(words, gaps) && words != []
    ensures WellSpaced(words[1..], gaps[1..])
  {
    assert forall k :: 0 <= k < |words| - 1 ==> words[1..][k] == words[k + 1];
    assert forall k :: 0 <= k < |gaps| - 1 ==> gaps[1..][k] == gaps[k + 1];
  }

  /** `split()` recovers the words from any layout of them: runs of any
      whitespace between them, and any whitespace before and after, as in
      the column-aligned lines `xrandr` prints. */
  lemma {:induction false} SplitSpaced(words: seq<string>, gaps: seq<string>)
    requires WellSpaced(words, gaps)
    ensures Split(Spaced(words, gaps)) == words
    decreases |words|
  {
    var s := Spaced(words, gaps);
    if words == [] {
      SkipLeadingSpace(gaps[0], []);
    } else {
      var w := words[0];
      var rest := Spaced(words[1..], gaps[1..]);
      assert s == gaps[0] + (w + rest);
      SpacedTail(words, gaps);
      SpacedStart(words[1..], gaps[1..]);
      assert gaps[1..][0] == gaps[1];
      assert rest == [] || IsSpace(rest[0]);
      SkipLeadingSpace(gaps[0], w + rest);
      assert IsWord(w);
      assert SkipSpaces(w + rest) == w + rest;
      WordOfWord(w, rest);
      SplitStep(s);
      assert (w + rest)[|w|..] == rest;
      SplitSpaced(words[1..], gaps[1..]);
      HeadTail(words);
    }
  }

  lemma HeadTail<T>(xs: seq<T>)
    requires xs != []
    ensures [xs[0]] + xs[1..] == xs
  {
  }

  /** `xs.index(x)`: the position of the first occurrence of `x`, or None
      where Python raises ValueError. */
  function IndexOf(xs: seq<string>, x: string): (r: Option<nat>)
    ensures r.None? <==> x !in xs
    ensures r.Some? ==> r.value < |xs| && xs[r.value] == x && x !in xs[..r.value]
  {
    if xs == [] then None
    else if xs[0] == x then Some(0)
    else
      match IndexOf(xs[1..], x)
      case None => None
      case Some(i) =>
        assert xs[..i + 1] == [xs[0]] + xs[1..][..i];
        Some(i + 1)
  }

  /** `s.replace(c, "")`: every occurrence of `c` removed, the rest kept in order. */
  function Without(s: string, c: char): (r: string)
    ensures c !in r
    ensures multiset(r) == multiset(s)[c := 0]
    ensures c !in s ==> r == s
  {
    if s == [] then []
    else
      var rest := Without(s[1..], c);
      assert s == [s[0]] + s[1..];
      if s[0] == c then rest else [s[0]] + rest
  }

  /** Removing `c` from a concatenation removes it from each part: the
      characters kept stay in their order. */
  lemma {:induction false} WithoutConcat(a: string, b: string, c: char)
    ensures Without(a + b, c) == Without(a, c) + Without(b, c)
    decreases |a|
  {
    if a == [] {
      assert a + b == b;
    } else {
      assert (a + b)[0] == a[0];
      assert (a + b)[1..] == a[1..] + b;
      WithoutConcat(a[1..], b, c);
    }
  }

  /** The height token of `xrandr`'s summary line ends in a comma, which is
      dropped and nothing else is. */
  lemma WithoutTrailing(t: string, c: char)
    requires c !in t
    ensures Without(t + [c], c) == t
  {
    WithoutConcat(t, [c], c);
  }

  predicate IsDigit(c: char) {
    '0' <= c <= '9'
  }

  predicate AllDigits(s: string) {
    forall i :: 0 <= i < |s| ==> IsDigit(s[i])
  }

  function DigitValue(c: char): nat
    requires IsDigit(c)
  {
    (c as int) - ('0' as int)
  }

  function DigitChar(d: nat): (c: char)
    requires d < 10
    ensures IsDigit(c) && DigitValue(c) == d
  {
    ('0' as int + d) as char
  }

  /** The value of a string of decimal digits, most significant first. */
  function DecimalValue(s: string): nat
    requires AllDigits(s)
    decreases |s|
  {
    if s == [] then 0 else 10 * DecimalValue(s[..|s| - 1]) + DigitValue(s[|s| - 1])
  }

  /** `int(s)` for a token without whitespace: an optional sign followed by
      one or more ASCII digits; None where Python raises ValueError. */
  function ParseInt(s: string): (r: Option<int>)
    ensures r.Some? ==> |s| > 0 && (IsDigit(s[0]) || s[0] == '+' || s[0] == '-')
    ensures r.Some? ==> forall i :: 0 < i < |s| ==> IsDigit(s[i])
    ensures r.Some? ==> exists i :: 0 <= i < |s| && IsDigit(s[i])
    ensures r.Some? && s[0] == '-' ==> r.value <= 0
    ensures r.Some? && s[0] != '-' ==> r.value >= 0
    ensures |s| > 0 && AllDigits(s) ==> r.Some?
  {
    if |s| > 1 && (s[0] == '+' || s[0] == '-') && AllDigits(s[1..]) then
      assert IsDigit(s[1]) by { assert s[1..][0] == s[1]; }
      var v: int := DecimalValue(s[1..]);
      Some(if s[0] == '-' then -v else v)
    else if |s| > 0 && AllDigits(s) then
      assert IsDigit(s[0]);
      Some(DecimalValue(s))
    else
      None
  }

  /** The decimal digits of `n`, without leading zeros. */
  function ShowNat(n: nat): (s: string)
    ensures |s| > 0 && AllDigits(s)
    ensures DecimalValue(s) == n
  {
    if n < 10 then
      var s := [DigitChar(n)];
      assert s[..0] == [];
      s
    else
      var p := ShowNat(n / 10);
      var s := p + [DigitChar(n % 10)];
      assert s[..|s| - 1] == p;
      s
  }

  /** `str(n)`. */
  function Show(n: int): string {
    if n < 0 then "-" + ShowNat(-n) else ShowNat(n)
  }

  /** `int(str(n)) == n`. */
  lemma ParseShow(n: int)
    ensures ParseInt(Show(n)) == Some(n)
  {
    if n < 0 {
      assert Show(n)[1..] == ShowNat(-n);
    }
  }

  /** An optional sign followed by digits reads as the digits' value, negated
      after a minus. */
  lemma ParseSigned(sign: string, digits: string)
    requires sign == "" || sign == "+" || sign == "-"
    requires |digits| > 0 && AllDigits(digits)
    ensures ParseInt(sign + digits) == Some(if sign == "-" then -(DecimalValue(digits) as int) else DecimalValue(digits) as int)
  {
    if sign != "" {
      assert (sign + digits)[0] == sign[0];
      assert (sign + digits)[1..] == digits;
    } else {
      assert sign + digits == digits;
    }
  }

  /** Leading zeros do not change the value of a digit string. */
  lemma {:induction false} LeadingZeros(zeros: string, digits: string)
    requires forall i :: 0 <= i < |zeros| ==> zeros[i] == '0'
    requires AllDigits(digits)
    ensures AllDigits(zeros + digits) && DecimalValue(zeros + digits) == DecimalValue(digits)
    decreases |digits|, |zeros|
  {
    var t := zeros + digits;
    assert forall i :: 0 <= i < |t| ==> IsDigit(t[i]) by {
      forall i | 0 <= i < |t| ensures IsDigit(t[i]) {
        if i < |zeros| { assert t[i] == zeros[i]; } else { assert t[i] == digits[i - |zeros|]; }
      }
    }
    if digits == [] {
      assert t == zeros;
      if zeros != [] {
        var init := zeros[..|zeros| - 1];
        assert init + [] == init;
        LeadingZeros(init, []);
      }
    } else {
      var init := digits[..|digits| - 1];
      assert t[..|t| - 1] == zeros + init;
      assert t[|t| - 1] == digits[|digits| - 1];
      LeadingZeros(zeros, init);
    }
  }

  /** `int()` of any token `xrandr` might print for a number: an optional
      sign, any run of zeros, then the decimal digits of `n`. */
  lemma ParsePadded(sign: string, zeros: string, n: nat)
    requires sign == "" || sign == "+" || sign == "-"
    requires forall i :: 0 <= i < |zeros| ==> zeros[i] == '0'
    ensures ParseInt(sign + zeros + ShowNat(n)) == Some(if sign == "-" then -(n as int) else n as int)
  {
    LeadingZeros(zeros, ShowNat(n));
    assert sign + zeros + ShowNat(n) == sign + (zeros + ShowNat(n));
    ParseSigned(sign, zeros + ShowNat(n));
  }

  /** The parts joined back together with `sep` between them. */
  function JoinOn(parts: seq<string>, sep: char): string {
    if parts == [] then []
    else if |parts| == 1 then parts[0]
    else parts[0] + [sep] + JoinOn(parts[1..], sep)
  }

  /** `s.split(sep)` for a one-character separator: never empty, no part
      contains `sep`, and joining the parts with `sep` gives `s` back. */
  function SplitOn(s: string, sep: char): (parts: seq<string>)
    ensures |parts| >= 1
    ensures forall k :: 0 <= k < |parts| ==> sep !in parts[k]
    ensures JoinOn(parts, sep) == s
  {
    if s == [] then [[]]
    else
      var rest := SplitOn(s[1..], sep);
      if s[0] == sep then
        var parts := [[]] + rest;
        assert parts[1..] == rest;
        parts
      else
        var parts := [[s[0]] + rest[0]] + rest[1..];
        assert parts[1..] == rest[1..];
        assert |rest| > 1 ==> JoinOn(rest, sep) == rest[0] + [sep] + JoinOn(rest[1..], sep);
        parts
  }

  /** Joining all but the last part, then the separator and the last part. */
  lemma {:induction false} JoinOnLast(parts: seq<string>, sep: char)
    requires |parts| >= 2
    ensures JoinOn(parts, sep) == JoinOn(parts[..|parts| - 1], sep) + [sep] + parts[|parts| - 1]
    decreases |parts|
  {
    if |parts| > 2 {
      JoinOnLast(parts[1..], sep);
      assert parts[1..][..|parts| - 2] == parts[..|parts| - 1][1..];
    }
  }
}
