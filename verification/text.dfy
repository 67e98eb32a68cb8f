/** String helpers with the exact whitespace semantics of the two host
    languages: Python's `str.split()`, `str.strip()`, `str.split(sep)`,
    `' '.join(...)`, and JavaScript's `String.prototype.trim`. */
module Text {

  /** Python `str.isspace` on a single character. */
  predicate IsPySpace(c: char) {
    var n := c as int;
    || (9 <= n <= 13) || (28 <= n <= 32) || n == 0x85 || n == 0xA0 || n == 0x1680
    || (0x2000 <= n <= 0x200A) || n == 0x2028 || n == 0x2029 || n == 0x202F
    || n == 0x205F || n == 0x3000
  }

  /** The ECMAScript WhiteSpace and LineTerminator characters, which
      `String.prototype.trim` removes from both ends. */
  predicate IsJsSpace(c: char) {
    var n := c as int;
    || (9 <= n <= 13) || n == 32 || n == 0xA0 || n == 0x1680
    || (0x2000 <= n <= 0x200A) || n == 0x2028 || n == 0x2029 || n == 0x202F
    || n == 0x205F || n == 0x3000 || n == 0xFEFF
  }

  /** Every character of `s` is whitespace under `ws` (vacuously true for ""). */
  predicate Blank(s: string, ws: char -> bool) {
    forall i :: 0 <= i < |s| ==> ws(s[i])
  }

  predicate StartsWith(s: string, prefix: string) {
    |prefix| <= |s| && s[..|prefix|] == prefix
  }

  predicate EndsWith(s: string, suffix: string) {
    |suffix| <= |s| && s[|s| - |suffix|..] == suffix
  }

  /** `sub` occurs in `s` starting at index `i`. */
  predicate OccursAt(s: string, sub: string, i: nat) {
    i + |sub| <= |s| && s[i..i + |sub|] == sub
  }

  /** JavaScript `s.includes(sub)` / Python `sub in s`. */
  predicate Contains(s: string, sub: string) {
    exists i: nat | i <= |s| :: OccursAt(s, sub, i)
  }

  /** A string cannot contain a piece whose first character it lacks. */
  lemma NotContainsWithoutFirstChar(s: string, sub: string)
    requires |sub| > 0 && sub[0] !in s
    ensures !Contains(s, sub)
  {
  }

  /** Every string contains itself. */
  lemma ContainsSelf(s: string)
    ensures Contains(s, s)
  {
    assert OccursAt(s, s, 0);
  }

  // ---------------------------------------------------------------------
  // Stripping

  /** Drops the leading whitespace of `s`. */
  function TrimStart(s: string, ws: char -> bool): (r: string)
    ensures |r| <= |s| && r == s[|s| - |r|..]
    ensures |r| > 0 ==> !ws(r[0])
    ensures Blank(s[..|s| - |r|], ws)
    decreases |s|
  {
    if |s| > 0 && ws(s[0]) then TrimStart(s[1..], ws) else s
  }

  /** Drops the trailing whitespace of `s`. */
  function TrimEnd(s: string, ws: char -> bool): (r: string)
    ensures |r| <= |s| && r == s[..|r|]
    ensures |r| > 0 ==> !ws(r[|r| - 1])
    ensures Blank(s[|r|..], ws)
    decreases |s|
  {
    if |s| > 0 && ws(s[|s| - 1]) then TrimEnd(s[..|s| - 1], ws) else s
  }

  /** Python `s.strip()` with `ws = IsPySpace`, JavaScript `s.trim()` with
      `ws = IsJsSpace`. */
  function Strip(s: string, ws: char -> bool): (r: string)
    ensures |r| > 0 ==> !ws(r[0]) && !ws(r[|r| - 1])
  {
    TrimEnd(TrimStart(s, ws), ws)
  }

  /** A string with no whitespace at either end is its own strip. */
  lemma StripKeepsTrimmed(s: string, ws: char -> bool)
    requires s != "" && !ws(s[0]) && !ws(s[|s| - 1])
    ensures Strip(s, ws) == s
  {
    assert TrimStart(s, ws) == s;
  }

  /** The stripped string is a contiguous piece of the original, and only
      whitespace was removed on either side. */
  lemma StripIsInfix(s: string, ws: char -> bool)
    ensures exists a, b :: 0 <= a <= b <= |s| && Strip(s, ws) == s[a..b]
                           && Blank(s[..a], ws) && Blank(s[b..], ws)
  {
    var t := TrimStart(s, ws);
    var r := TrimEnd(t, ws);
    var a := |s| - |t|;
    var b := a + |r|;
    assert s[a..b] == r;
    assert s[b..] == t[|r|..];
    assert Blank(s[..a], ws) && Blank(s[b..], ws);
    assert 0 <= a <= b <= |s| && Strip(s, ws) == s[a..b];
  }

  /** Stripping yields the empty string exactly when the input is blank. */
  lemma StripEmptyIffBlank(s: string, ws: char -> bool)
    ensures Strip(s, ws) == "" <==> Blank(s, ws)
  {
    var t := TrimStart(s, ws);
    if Strip(s, ws) == "" {
      assert |t| == 0;
      assert s[..|s|] == s;
    } else {
      assert !ws(t[0]) && t[0] == s[|s| - |t|];
    }
  }

  // ---------------------------------------------------------------------
  // Python `s.split()` and `' '.join(...)`

  /** A word of `str.split()`: non-empty, without whitespace. */
  predicate IsWord(w: string) {
    |w| > 0 && forall k :: 0 <= k < |w| ==> !IsPySpace(w[k])
  }

  predicate AllWords(ws: seq<string>) {
    forall i :: 0 <= i < |ws| ==> IsWord(ws[i])
  }

  /** Length of the run of non-whitespace characters at the start of `s`. */
  function WordLength(s: string): (n: nat)
    ensures n <= |s|
    ensures forall k :: 0 <= k < n ==> !IsPySpace(s[k])
    ensures n < |s| ==> IsPySpace(s[n])
    decreases |s|
  {
    if |s| == 0 || IsPySpace(s[0]) then 0 else 1 + WordLength(s[1..])
  }

  /** Python `s.split()`: the maximal whitespace-free runs of `s`, in order. */
  function Words(s: string): (ws: seq<string>)
    ensures AllWords(ws)
    ensures |ws| <= |s|
    decreases |s|
  {
    if |s| == 0 then []
    else if IsPySpace(s[0]) then Words(s[1..])
    else
      var n := WordLength(s);
      [s[..n]] + Words(s[n..])
  }

  /** Python `sep.join(parts)`. */
  function Join(parts: seq<string>, sep: string): string
  {
    if |parts| == 0 then ""
    else if |parts| == 1 then parts[0]
    else parts[0] + sep + Join(parts[1..], sep)
  }

  /** Python `' '.join(s.split())`: every whitespace run collapsed to one
      space, no whitespace at either end. */
  function Normalize(s: string): string
  {
    Join(Words(s), " ")
  }

  /** A string has no words exactly when it is blank. */
  lemma {:induction false} WordsEmptyIffBlank(s: string)
    ensures Words(s) == [] <==> Blank(s, IsPySpace)
    decreases |s|
  {
    if |s| == 0 {
    } else if IsPySpace(s[0]) {
      WordsEmptyIffBlank(s[1..]);
      if Blank(s[1..], IsPySpace) {
        forall i | 0 <= i < |s| ensures IsPySpace(s[i]) {
          if i > 0 { assert s[i] == s[1..][i - 1]; }
        }
      }
    } else {
      assert !IsPySpace(s[0]);
    }
  }

  /** A word followed by nothing or by whitespace is split off as one word. */
  lemma {:induction false} WordsOfWordThen(w: string, t: string)
    requires IsWord(w)
    requires |t| == 0 || IsPySpace(t[0])
    ensures Words(w + t) == [w] + Words(t)
  {
    var s := w + t;
    WordLengthOfWordThen(w, t);
    assert s[..|w|] == w;
    assert s[|w|..] == t;
  }

  lemma {:induction false} WordLengthOfWordThen(w: string, t: string)
    requires forall k :: 0 <= k < |w| ==> !IsPySpace(w[k])
    requires |t| == 0 || IsPySpace(t[0])
    ensures WordLength(w + t) == |w|
    decreases |w|
  {
    if |w| > 0 {
      assert (w + t)[0] == w[0];
      assert (w + t)[1..] == w[1..] + t;
      WordLengthOfWordThen(w[1..], t);
    } else {
      assert w + t == t;
    }
  }

  /** Splitting a space-joined list of words gives the list back. */
  lemma {:induction false} WordsOfJoin(ws: seq<string>)
    requires AllWords(ws)
    ensures Words(Join(ws, " ")) == ws
    decreases |ws|
  {
    if |ws| == 0 {
    } else if |ws| == 1 {
      WordsOfWordThen(ws[0], "");
      assert ws[0] + "" == ws[0];
    } else {
      var rest := Join(ws[1..], " ");
      WordsOfJoin(ws[1..]);
      assert ws[0] + " " + rest == ws[0] + (" " + rest);
      WordsOfWordThen(ws[0], " " + rest);
      assert (" " + rest)[1..] == rest;
      assert [ws[0]] + ws[1..] == ws;
    }
  }

  /** Normalising keeps the words and is idempotent. */
  lemma NormalizeKeepsWords(s: string)
    ensures Words(Normalize(s)) == Words(s)
    ensures Normalize(Normalize(s)) == Normalize(s)
  {
    WordsOfJoin(Words(s));
  }

  /** A canonical string: only plain spaces as whitespace, never at either
      end, never two in a row. */
  predicate Canonical(t: string) {
    && (forall i :: 0 <= i < |t| && IsPySpace(t[i]) ==> t[i] == ' ')
    && (|t| > 0 ==> !IsPySpace(t[0]) && !IsPySpace(t[|t| - 1]))
    && (forall i :: 0 < i < |t| && IsPySpace(t[i]) ==> !IsPySpace(t[i - 1]))
  }

  lemma {:induction false} JoinWordsCanonical(ws: seq<string>)
    requires AllWords(ws)
    ensures Canonical(Join(ws, " "))
    ensures |ws| > 0 ==> |Join(ws, " ")| > 0
    decreases |ws|
  {
    if |ws| == 1 {
      assert IsWord(ws[0]);
    } else if |ws| > 1 {
      var w := ws[0];
      var rest := Join(ws[1..], " ");
      JoinWordsCanonical(ws[1..]);
      assert IsWord(w) && IsWord(ws[1]);
      var t := w + " " + rest;
      assert t == Join(ws, " ");
      forall i | 0 <= i < |t| && IsPySpace(t[i]) ensures t[i] == ' ' {
        if i > |w| { assert t[i] == rest[i - |w| - 1]; }
      }
      forall i | 0 < i < |t| && IsPySpace(t[i]) ensures !IsPySpace(t[i - 1]) {
        if i > |w| + 1 {
          assert t[i] == rest[i - |w| - 1];
          assert t[i - 1] == rest[i - |w| - 2];
        }
      }
      assert t[|t| - 1] == rest[|rest| - 1];
    }
  }

  /** The cleaning done by `' '.join(text.split())` always yields a
      canonical string. */
  lemma NormalizeCanonical(s: string)
    ensures Canonical(Normalize(s))
  {
    JoinWordsCanonical(Words(s));
  }

  // ---------------------------------------------------------------------
  // Python `s.split(sep)` with a non-empty separator

  /** Python `s.split(sep)`: scanning left to right, every occurrence of
      `sep` ends one piece; there is always at least one piece. */
  function SplitOn(s: string, sep: string): (parts: seq<string>)
    requires |sep| > 0
    ensures |parts| >= 1
    decreases |s|
  {
    if StartsWith(s, sep) then [""] + SplitOn(s[|sep|..], sep)
    else if |s| == 0 then [""]
    else
      var rest := SplitOn(s[1..], sep);
      [[s[0]] + rest[0]] + rest[1..]
  }

  lemma JoinConsChar(c: char, parts: seq<string>, sep: string)
    requires |parts| >= 1
    ensures Join([[c] + parts[0]] + parts[1..], sep) == [c] + Join(parts, sep)
  {
    var q := [[c] + parts[0]] + parts[1..];
    if |parts| > 1 {
      assert q[1..] == parts[1..];
    }
  }

  lemma JoinConsEmpty(parts: seq<string>, sep: string)
    requires |parts| >= 1
    ensures Join([""] + parts, sep) == sep + Join(parts, sep)
  {
    assert ([""] + parts)[1..] == parts;
  }

  /** Joining the pieces with the separator rebuilds the original string. */
  lemma {:induction false} JoinSplitOn(s: string, sep: string)
    requires |sep| > 0
    ensures Join(SplitOn(s, sep), sep) == s
    decreases |s|
  {
    if StartsWith(s, sep) {
      var t := s[|sep|..];
      var rest := SplitOn(t, sep);
      assert SplitOn(s, sep) == [""] + rest;
      JoinSplitOn(t, sep);
      JoinConsEmpty(rest, sep);
      assert s == s[..|sep|] + t;
    } else if |s| == 0 {
      assert SplitOn(s, sep) == [""];
    } else {
      var rest := SplitOn(s[1..], sep);
      assert SplitOn(s, sep) == [[s[0]] + rest[0]] + rest[1..];
      JoinSplitOn(s[1..], sep);
      JoinConsChar(s[0], rest, sep);
      assert s == [s[0]] + s[1..];
    }
  }

  /** A string without the separator is a single piece. */
  lemma {:induction false} SplitOnWithoutSep(s: string, sep: string)
    requires |sep| > 0
    requires !Contains(s, sep)
    ensures SplitOn(s, sep) == [s]
    decreases |s|
  {
    if StartsWith(s, sep) {
      assert OccursAt(s, sep, 0);
      assert false;
    } else if |s| > 0 {
      if Contains(s[1..], sep) {
        var i: nat :| i <= |s[1..]| && OccursAt(s[1..], sep, i);
        assert s[i + 1..i + 1 + |sep|] == s[1..][i..i + |sep|];
        assert OccursAt(s, sep, i + 1);
        assert false;
      }
      SplitOnWithoutSep(s[1..], sep);
      assert [s[0]] + s[1..] == s;
    }
  }

  // ---------------------------------------------------------------------
  // Cutting at the first occurrence of one character

  /** The part of `s` before the first `c`, or all of `s` when it has no `c`. */
  function UpTo(s: string, c: char): (r: string)
    ensures |r| <= |s| && r == s[..|r|]
    ensures c !in r
    ensures |r| < |s| ==> s[|r|] == c
    decreases |s|
  {
    if |s| == 0 || s[0] == c then "" else [s[0]] + UpTo(s[1..], c)
  }

  /** The part of `s` after its first `c`. */
  function AfterFirst(s: string, c: char): (r: string)
    requires c in s
    ensures s == UpTo(s, c) + [c] + r
  {
    var n := |UpTo(s, c)|;
    assert s == s[..n] + [s[n]] + s[n + 1..];
    s[n + 1..]
  }

  /** Cutting a piece without `c`, then `c`, then anything, gives the piece. */
  lemma UpToFirst(a: string, c: char, b: string)
    requires c !in a
    ensures UpTo(a + [c] + b, c) == a
  {
    var s := a + [c] + b;
    assert s[..|a|] == a && s[|a|] == c;
  }

  /** With a one-character separator, the first piece of `split` is the
      text before the first separator. */
  lemma {:induction false} SplitOnFirstPiece(s: string, c: char)
    ensures SplitOn(s, [c])[0] == UpTo(s, c)
    decreases |s|
  {
    if StartsWith(s, [c]) {
      assert s[0] == c;
    } else if |s| > 0 {
      assert s[0] != c;
      SplitOnFirstPiece(s[1..], c);
    }
  }

  /** With a one-character separator, `split` cuts at the first separator
      and carries on with the rest. */
  lemma {:induction false} SplitOnAtFirst(s: string, c: char)
    requires c in s
    ensures SplitOn(s, [c]) == [UpTo(s, c)] + SplitOn(AfterFirst(s, c), [c])
    decreases |s|
  {
    if StartsWith(s, [c]) {
      assert s[0] == c;
      assert AfterFirst(s, c) == s[1..];
    } else {
      assert s[0] != c && s == [s[0]] + s[1..];
      assert c in s[1..];
      SplitOnAtFirst(s[1..], c);
      CutAfterFirstChar(s, c);
    }
  }

  /** Cutting at the first `c` commutes with dropping a first character
      that is not `c`. */
  lemma CutAfterFirstChar(s: string, c: char)
    requires c in s && s[0] != c && c in s[1..]
    ensures UpTo(s, c) == [s[0]] + UpTo(s[1..], c)
    ensures AfterFirst(s, c) == AfterFirst(s[1..], c)
  {
    var u := UpTo(s[1..], c);
    var w := AfterFirst(s[1..], c);
    assert s == [s[0]] + u + [c] + w;
    UpToFirst([s[0]] + u, c, w);
  }

  /** With a one-character separator present, the second piece of `split`
      is the text between the first and the second separator (or the end). */
  lemma SecondPiece(s: string, c: char)
    requires c in s
    ensures |SplitOn(s, [c])| >= 2
    ensures SplitOn(s, [c])[1] == UpTo(AfterFirst(s, c), c)
  {
    SplitOnAtFirst(s, c);
    SplitOnFirstPiece(AfterFirst(s, c), c);
  }
}
