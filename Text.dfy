/**
 * The Python `str` operations the cleaner is built from, over Dafny strings:
 * `strip`, `split()` on whitespace, `split(sep)` on a literal separator,
 * `join`, the substring test `in`, `replace(pat, "")`, `startswith`,
 * `upper` and `isdigit`.
 */
module Text {
  import opened Wrappers

  /** Python's `str.isspace`: what `split()`, `strip()` and the regex class `\s`
      treat as whitespace. */
  const Whitespace: set<char> := {
    '\t', '\n', '\U{B}', '\U{C}', '\r', '\U{1C}', '\U{1D}', '\U{1E}', '\U{1F}', ' ',
    '\U{85}', '\U{A0}', '\U{1680}',
    '\U{2000}', '\U{2001}', '\U{2002}', '\U{2003}', '\U{2004}', '\U{2005}',
    '\U{2006}', '\U{2007}', '\U{2008}', '\U{2009}', '\U{200A}',
    '\U{2028}', '\U{2029}', '\U{202F}', '\U{205F}', '\U{3000}'
  }

  predicate IsSpace(c: char) {
    c in Whitespace
  }

  predicate AllSpace(s: string) {
    forall c <- s :: IsSpace(c)
  }

  /** Drops the leading characters that are in `chars`. */
  function TrimStart(s: string, chars: set<char>): (r: string)
    ensures |r| <= |s|
    decreases |s|
  {
    if s != [] && s[0] in chars then TrimStart(s[1..], chars) else s
  }

  /** TrimStart keeps a suffix, and drops only characters of `chars`, up to the first
      one that is not. */
  lemma {:induction false} TrimStartKeepsSuffix(s: string, chars: set<char>)
    ensures var r := TrimStart(s, chars);
      && r == s[|s| - |r|..]
      && (r == [] || r[0] !in chars)
      && forall i :: 0 <= i < |s| - |r| ==> s[i] in chars
    decreases |s|
  {
    if s != [] && s[0] in chars {
      TrimStartKeepsSuffix(s[1..], chars);
      var r := TrimStart(s, chars);
      forall i | 0 <= i < |s| - |r| ensures s[i] in chars {
        if i > 0 {
          assert s[i] == s[1..][i - 1];
        }
      }
    }
  }

  /** Drops the trailing characters that are in `chars`. */
  function TrimEnd(s: string, chars: set<char>): (r: string)
    ensures |r| <= |s|
    decreases |s|
  {
    if s != [] && s[|s| - 1] in chars then TrimEnd(s[..|s| - 1], chars) else s
  }

  /** TrimEnd keeps a prefix, and drops only characters of `chars`, back to the last
      one that is not. */
  lemma {:induction false} TrimEndKeepsPrefix(s: string, chars: set<char>)
    ensures var r := TrimEnd(s, chars);
      && r == s[..|r|]
      && (r == [] || r[|r| - 1] !in chars)
      && forall i :: |r| <= i < |s| ==> s[i] in chars
    decreases |s|
  {
    if s != [] && s[|s| - 1] in chars {
      TrimEndKeepsPrefix(s[..|s| - 1], chars);
      var r := TrimEnd(s, chars);
      forall i | |r| <= i < |s| ensures s[i] in chars {
        if i < |s| - 1 {
          assert s[i] == s[..|s| - 1][i];
        }
      }
    }
  }

  /** Python's `s.strip(chars)`: the longest middle slice of `s` that neither
      starts nor ends with a character of `chars`. */
  function StripChars(s: string, chars: set<char>): (r: string)
    ensures |r| <= |s|
    ensures r == [] || (r[0] !in chars && r[|r| - 1] !in chars)
  {
    var t := TrimStart(s, chars);
    TrimStartKeepsSuffix(s, chars);
    TrimEndKeepsPrefix(t, chars);
    assert t != [] ==> t[0] == s[|s| - |t|];
    TrimEnd(t, chars)
  }

  /** Stripping a string made only of `chars` leaves nothing, and stripping one whose
      ends are not in `chars` changes nothing. */
  lemma StripCharsEdges(s: string, chars: set<char>)
    ensures (forall c <- s :: c in chars) ==> StripChars(s, chars) == []
    ensures (s == [] || (s[0] !in chars && s[|s| - 1] !in chars)) ==> StripChars(s, chars) == s
  {
    var t := TrimStart(s, chars);
    TrimStartKeepsSuffix(s, chars);
    TrimEndKeepsPrefix(t, chars);
    if s != [] && s[0] !in chars && s[|s| - 1] !in chars {
      assert t == s;
    }
  }

  /** The bounds of the slice StripChars keeps: only stripped characters lie outside it. */
  lemma StripBounds(s: string, chars: set<char>) returns (lo: nat, hi: nat)
    ensures lo <= hi <= |s| && StripChars(s, chars) == s[lo..hi]
    ensures forall i :: 0 <= i < lo ==> s[i] in chars
    ensures forall i :: hi <= i < |s| ==> s[i] in chars
  {
    var t := TrimStart(s, chars);
    var u := TrimEnd(t, chars);
    TrimStartKeepsSuffix(s, chars);
    TrimEndKeepsPrefix(t, chars);
    lo := |s| - |t|;
    hi := lo + |u|;
    SliceOfSuffix(s, lo, |u|);
    forall i | hi <= i < |s| ensures s[i] in chars {
      assert s[i] == t[i - lo];
    }
  }

  lemma SliceOfSuffix(s: string, lo: nat, n: nat)
    requires lo + n <= |s|
    ensures s[lo..][..n] == s[lo..lo + n]
  {
  }

  /** Python's `s.strip()`. */
  function Strip(s: string): (r: string)
    ensures |r| <= |s|
    ensures r == [] || (!IsSpace(r[0]) && !IsSpace(r[|r| - 1]))
    ensures AllSpace(s) ==> r == []
  {
    StripCharsEdges(s, Whitespace);
    StripChars(s, Whitespace)
  }

  /** Trimming twice is trimming once. */
  lemma StripIdempotent(s: string)
    ensures Strip(Strip(s)) == Strip(s)
  {
    StripCharsEdges(Strip(s), Whitespace);
  }

  predicate NoSpace(s: string) {
    forall c <- s :: !IsSpace(c)
  }

  /** A token of `str.split()`: non-empty and free of whitespace. */
  predicate IsWord(w: string) {
    w != [] && NoSpace(w)
  }

  /** Length of the leading run of non-whitespace characters. */
  function TokenLength(s: string): (n: nat)
    ensures n <= |s|
    ensures forall i :: 0 <= i < n ==> !IsSpace(s[i])
    ensures n == |s| || IsSpace(s[n])
  {
    if s == [] || IsSpace(s[0]) then 0 else 1 + TokenLength(s[1..])
  }

  /** Python's `s.split()`: the maximal runs of non-whitespace characters, in order. */
  function Words(s: string): (ws: seq<string>)
    ensures forall w <- ws :: IsWord(w)
    decreases |s|
  {
    if s == [] then []
    else if IsSpace(s[0]) then Words(s[1..])
    else
      var n := TokenLength(s);
      [s[..n]] + Words(s[n..])
  }

  lemma WordsUnfoldSpace(s: string)
    requires s != [] && IsSpace(s[0])
    ensures Words(s) == Words(s[1..])
  {
  }

  lemma WordsUnfoldToken(s: string)
    requires s != [] && !IsSpace(s[0])
    ensures Words(s) == [s[..TokenLength(s)]] + Words(s[TokenLength(s)..])
  {
  }

  /** The token of `x + y` is the token of `x` when it ends inside `x` or `y` starts
      with whitespace. */
  lemma {:induction false} TokenLengthExtend(x: string, y: string)
    requires TokenLength(x) < |x| || y == [] || IsSpace(y[0])
    ensures TokenLength(x + y) == TokenLength(x)
    decreases |x|
  {
    if x == [] {
    } else if !IsSpace(x[0]) {
      assert (x + y)[1..] == x[1..] + y;
      TokenLengthExtend(x[1..], y);
    }
  }

  /** Leading whitespace does not change the words. */
  lemma {:induction false} WordsAfterSpace(sp: string, x: string)
    requires AllSpace(sp)
    ensures Words(sp + x) == Words(x)
    decreases |sp|
  {
    if sp == [] {
      assert sp + x == x;
    } else {
      WordsUnfoldSpace(sp + x);
      assert (sp + x)[1..] == sp[1..] + x;
      WordsAfterSpace(sp[1..], x);
    }
  }

  /** Trailing whitespace does not change the words. */
  lemma {:induction false} WordsBeforeSpace(x: string, sp: string)
    requires AllSpace(sp)
    ensures Words(x + sp) == Words(x)
    decreases |x|
  {
    if x == [] {
      assert x + sp == sp + [];
      WordsAfterSpace(sp, []);
    } else if IsSpace(x[0]) {
      WordsBeforeSpace(x[1..], sp);
      WordsBeforeSpaceStep(x, sp);
    } else {
      var n := TokenLength(x);
      WordsBeforeSpace(x[n..], sp);
      WordsBeforeSpaceToken(x, sp);
    }
  }

  lemma WordsBeforeSpaceStep(x: string, sp: string)
    requires x != [] && IsSpace(x[0])
    requires Words(x[1..] + sp) == Words(x[1..])
    ensures Words(x + sp) == Words(x)
  {
    WordsUnfoldSpace(x + sp);
    WordsUnfoldSpace(x);
    assert (x + sp)[1..] == x[1..] + sp;
  }

  lemma WordsBeforeSpaceToken(x: string, sp: string)
    requires x != [] && !IsSpace(x[0]) && AllSpace(sp)
    requires Words(x[TokenLength(x)..] + sp) == Words(x[TokenLength(x)..])
    ensures Words(x + sp) == Words(x)
  {
    var n := TokenLength(x);
    TokenLengthExtend(x, sp);
    WordsUnfoldToken(x + sp);
    WordsUnfoldToken(x);
    ConcatSlices(x, sp, n);
  }

  lemma ConcatSlices(x: string, y: string, n: nat)
    requires n <= |x|
    ensures (x + y)[..n] == x[..n] && (x + y)[n..] == x[n..] + y
  {
  }

  /** Python's `s.strip().split() == s.split()`. */
  lemma WordsOfStrip(x: string)
    ensures Words(Strip(x)) == Words(x)
  {
    var lo, hi := StripBounds(x, Whitespace);
    assert x == x[..lo] + (x[lo..hi] + x[hi..]);
    assert AllSpace(x[..lo]) && AllSpace(x[hi..]);
    WordsAfterSpace(x[..lo], x[lo..hi] + x[hi..]);
    WordsBeforeSpace(x[lo..hi], x[hi..]);
  }

  /** A word followed by whitespace (or nothing) is the first word. */
  lemma WordsOfWordThen(w: string, rest: string)
    requires IsWord(w) && (rest == [] || IsSpace(rest[0]))
    ensures Words(w + rest) == [w] + Words(rest)
  {
    TokenLengthOfWord(w);
    TokenLengthExtend(w, rest);
    WordsUnfoldToken(w + rest);
    assert (w + rest)[..|w|] == w;
    assert (w + rest)[|w|..] == rest;
  }

  lemma {:induction false} TokenLengthOfWord(w: string)
    requires NoSpace(w)
    ensures TokenLength(w) == |w|
    decreases |w|
  {
    if w != [] {
      TokenLengthOfWord(w[1..]);
    }
  }

  /** Splitting words joined by a space gives the words back. */
  lemma {:induction false} WordsOfJoin(ws: seq<string>)
    requires forall w <- ws :: IsWord(w)
    ensures Words(Join(" ", ws)) == ws
    decreases |ws|
  {
    if ws == [] {
    } else if |ws| == 1 {
      WordsOfWordThen(ws[0], []);
      assert ws[0] + [] == ws[0];
    } else {
      WordsOfJoin(ws[1..]);
      WordsOfJoinStep(ws[0], ws[1..]);
      assert ws == [ws[0]] + ws[1..];
    }
  }

  lemma WordsOfJoinStep(w: string, ws: seq<string>)
    requires IsWord(w) && ws != []
    requires Words(Join(" ", ws)) == ws
    ensures Words(Join(" ", [w] + ws)) == [w] + ws
  {
    var rest := Join(" ", ws);
    JoinCons(" ", w, ws);
    WordsOfWordThen(w, " " + rest);
    WordsUnfoldSpace(" " + rest);
    assert (" " + rest)[1..] == rest;
    assert w + " " + rest == w + (" " + rest);
  }

  /** Joining whitespace-free pieces with a whitespace-free separator gives no whitespace. */
  lemma {:induction false} JoinHasNoSpace(sep: string, parts: seq<string>)
    requires NoSpace(sep)
    requires forall p <- parts :: NoSpace(p)
    ensures NoSpace(Join(sep, parts))
    decreases |parts|
  {
    if |parts| == 1 {
      assert parts[0] in parts;
    } else if |parts| > 1 {
      assert forall p <- parts[1..] :: p in parts;
      JoinHasNoSpace(sep, parts[1..]);
      JoinCons(sep, parts[0], parts[1..]);
      assert parts == [parts[0]] + parts[1..];
      assert parts[0] in parts;
      var tail := Join(sep, parts[1..]);
      forall c | c in parts[0] + sep + tail ensures !IsSpace(c) {
        assert c in parts[0] || c in sep || c in tail;
      }
    }
  }

  /** Python's `sep.join(parts)`. */
  function Join(sep: string, parts: seq<string>): string {
    if parts == [] then ""
    else if |parts| == 1 then parts[0]
    else parts[0] + sep + Join(sep, parts[1..])
  }

  lemma JoinCons(sep: string, first: string, parts: seq<string>)
    requires parts != []
    ensures Join(sep, [first] + parts) == first + sep + Join(sep, parts)
  {
    assert ([first] + parts)[1..] == parts;
  }

  /** A join starts with the first character of its first part. */
  lemma JoinHead(sep: string, parts: seq<string>)
    requires parts != [] && parts[0] != []
    ensures Join(sep, parts) != [] && Join(sep, parts)[0] == parts[0][0]
  {
  }

  /** A join ends with the last character of its last part. */
  lemma {:induction false} JoinLast(sep: string, parts: seq<string>)
    requires parts != [] && parts[|parts| - 1] != []
    ensures var j := Join(sep, parts); j != [] && j[|j| - 1] == parts[|parts| - 1][|parts[|parts| - 1]| - 1]
    decreases |parts|
  {
    if |parts| > 1 {
      JoinLast(sep, parts[1..]);
    }
  }

  /** Every character of a join comes from the separator or from one of the parts. */
  lemma {:induction false} JoinChars(sep: string, parts: seq<string>)
    ensures forall c <- Join(sep, parts) :: c in sep || exists p <- parts :: c in p
    decreases |parts|
  {
    if |parts| > 1 {
      JoinChars(sep, parts[1..]);
      forall c | c in Join(sep, parts) ensures c in sep || exists p <- parts :: c in p {
        if c in parts[0] {
        } else if c !in sep {
          var p :| p in parts[1..] && c in p;
          assert p in parts;
        }
      }
    } else if |parts| == 1 {
      assert forall c <- Join(sep, parts) :: c in parts[0];
    }
  }

  /** `pat` occurs in `s` starting at index `i`. */
  predicate OccursAt(s: string, pat: string, i: nat) {
    i + |pat| <= |s| && s[i..i + |pat|] == pat
  }

  /** Python's `pat in s`. */
  predicate Contains(s: string, pat: string) {
    exists i: nat | i <= |s| :: OccursAt(s, pat, i)
  }

  /** The leftmost occurrence of `pat` in `s` at or after `from`, as `s.find(pat, from)`. */
  function FindFrom(s: string, pat: string, from: nat): (r: Option<nat>)
    ensures r.Some? ==> from <= r.value && OccursAt(s, pat, r.value)
    decreases |s| - from
  {
    if from + |pat| > |s| then None
    else if OccursAt(s, pat, from) then Some(from)
    else FindFrom(s, pat, from + 1)
  }

  /** Python's `s.find(pat)`, with None for -1. */
  function Find(s: string, pat: string): (r: Option<nat>)
    ensures r.Some? ==> OccursAt(s, pat, r.value)
  {
    FindFrom(s, pat, 0)
  }

  /** FindFrom returns the leftmost occurrence, and None only when there is none. */
  lemma {:induction false} FindFromIsLeftmost(s: string, pat: string, from: nat)
    ensures FindFrom(s, pat, from).None? ==> forall i: nat :: from <= i ==> !OccursAt(s, pat, i)
    ensures FindFrom(s, pat, from).Some? ==>
      forall i: nat :: from <= i < FindFrom(s, pat, from).value ==> !OccursAt(s, pat, i)
    decreases |s| - from
  {
    if from + |pat| <= |s| && !OccursAt(s, pat, from) {
      FindFromIsLeftmost(s, pat, from + 1);
    }
  }

  /** Python's `s.find(pat) == -1` exactly when `pat not in s`. */
  lemma FindNoneIffAbsent(s: string, pat: string)
    ensures Find(s, pat).None? <==> !Contains(s, pat)
  {
    FindFromIsLeftmost(s, pat, 0);
  }

  /** Python's `s.split(sep)` for a non-empty separator: cut at every
      non-overlapping occurrence, scanning from the left. */
  function SplitOn(s: string, sep: string): (parts: seq<string>)
    requires sep != []
    ensures |parts| >= 1
    decreases |s|
  {
    var found := Find(s, sep);
    if found.None? then [s]
    else [s[..found.value]] + SplitOn(s[found.value + |sep|..], sep)
  }

  /** A split has a single piece exactly when the separator does not occur. */
  lemma SplitOnSingle(s: string, sep: string)
    requires sep != []
    ensures |SplitOn(s, sep)| == 1 <==> !Contains(s, sep)
  {
    FindNoneIffAbsent(s, sep);
  }

  /** Joining the pieces of a split with the separator gives back the string. */
  lemma {:induction false} JoinSplitOn(s: string, sep: string)
    requires sep != []
    ensures Join(sep, SplitOn(s, sep)) == s
    decreases |s|
  {
    var found := Find(s, sep);
    if found.Some? {
      var i := found.value;
      JoinSplitOn(s[i + |sep|..], sep);
      JoinSplitStep(s, sep, i);
    }
  }

  /** One step of a split: the piece before the leftmost separator, then the rest split. */
  lemma SplitOnStep(s: string, sep: string, i: nat)
    requires sep != [] && Find(s, sep) == Some(i)
    ensures SplitOn(s, sep) == [s[..i]] + SplitOn(s[i + |sep|..], sep)
  {
  }

  lemma JoinSplitStep(s: string, sep: string, i: nat)
    requires sep != [] && Find(s, sep) == Some(i)
    requires Join(sep, SplitOn(s[i + |sep|..], sep)) == s[i + |sep|..]
    ensures Join(sep, SplitOn(s, sep)) == s
  {
    var rest := s[i + |sep|..];
    SplitOnStep(s, sep, i);
    JoinCons(sep, s[..i], SplitOn(rest, sep));
    SplitAround(s, i, |sep|);
  }

  lemma SplitAround(s: string, i: nat, n: nat)
    requires i + n <= |s|
    ensures s == s[..i] + s[i..i + n] + s[i + n..]
  {
  }

  /** Python's `s.replace(pat, "")`: one left-to-right pass that deletes the
      non-overlapping occurrences of `pat`. */
  function RemoveAll(s: string, pat: string): (r: string)
    requires pat != []
    ensures |r| <= |s|
    ensures !Contains(s, pat) ==> r == s
    decreases |s|
  {
    FindNoneIffAbsent(s, pat);
    var found := Find(s, pat);
    if found.None? then s
    else s[..found.value] + RemoveAll(s[found.value + |pat|..], pat)
  }

  /** `s.replace(pat, "")` is `"".join(s.split(pat))`. */
  lemma {:induction false} RemoveAllIsJoinOfSplit(s: string, pat: string)
    requires pat != []
    ensures RemoveAll(s, pat) == Join("", SplitOn(s, pat))
    decreases |s|
  {
    var found := Find(s, pat);
    if found.Some? {
      var i := found.value;
      RemoveAllIsJoinOfSplit(s[i + |pat|..], pat);
      RemoveAllStep(s, pat, i);
    }
  }

  lemma RemoveAllStep(s: string, pat: string, i: nat)
    requires pat != [] && Find(s, pat) == Some(i)
    requires RemoveAll(s[i + |pat|..], pat) == Join("", SplitOn(s[i + |pat|..], pat))
    ensures RemoveAll(s, pat) == Join("", SplitOn(s, pat))
  {
    var rest := s[i + |pat|..];
    var parts := SplitOn(rest, pat);
    SplitOnStep(s, pat, i);
    JoinCons("", s[..i], parts);
    assert Join("", SplitOn(s, pat)) == s[..i] + "" + Join("", parts);
    RemoveAllUnfold(s, pat, i);
    assert s[..i] + "" == s[..i];
  }

  lemma RemoveAllUnfold(s: string, pat: string, i: nat)
    requires pat != [] && Find(s, pat) == Some(i)
    ensures RemoveAll(s, pat) == s[..i] + RemoveAll(s[i + |pat|..], pat)
  {
  }

  /** Python's `s.startswith(p)`. */
  predicate StartsWith(s: string, p: string) {
    |p| <= |s| && s[..|p|] == p
  }

  /** Python's `str.upper` on one character, for every character whose upper
      case is a single ASCII letter: `a`-`z`, dotless i (U+0131) and long s (U+017F). */
  function UpperChar(c: char): char {
    if 'a' <= c <= 'z' then (c as int - 32) as char
    else if c == '\U{131}' then 'I'
    else if c == '\U{17F}' then 'S'
    else c
  }

  /** Python's `s.upper()`, character by character (see UpperChar). */
  function Upper(s: string): (r: string)
    ensures |r| == |s|
    ensures forall i :: 0 <= i < |s| ==> r[i] == UpperChar(s[i])
  {
    seq(|s|, i requires 0 <= i < |s| => UpperChar(s[i]))
  }

  predicate IsDigit(c: char) {
    '0' <= c <= '9'
  }

  /** Python's `s.isdigit()` for ASCII digits: non-empty and digits only. */
  predicate IsDigits(s: string) {
    s != [] && forall c <- s :: IsDigit(c)
  }

  /** Python's `int(s)` on a string of decimal digits. */
  function DigitsValue(s: string): (n: nat)
    requires forall c <- s :: IsDigit(c)
    decreases |s|
  {
    if s == [] then 0
    else
      assert IsDigit(s[|s| - 1]);
      10 * DigitsValue(s[..|s| - 1]) + (s[|s| - 1] as int - '0' as int)
  }
}
