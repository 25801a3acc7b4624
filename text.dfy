/** The JavaScript string operations the client relies on: `trim`,
    `split` on a fixed separator, `includes`, `startsWith` and ASCII
    case mapping. Strings are sequences of characters. */
module Text {

  /** The characters `String.prototype.trim` removes: the Unicode
      White_Space characters of the ECMAScript grammar and the line
      terminators. */
  predicate IsWhitespace(c: char) {
    c == ' ' || c == '\t' || c == '\n' || c == '\r'
    || c == '\U{000B}' || c == '\U{000C}' || c == '\U{00A0}' || c == '\U{1680}'
    || ('\U{2000}' <= c <= '\U{200A}')
    || c == '\U{2028}' || c == '\U{2029}' || c == '\U{202F}' || c == '\U{205F}'
    || c == '\U{3000}' || c == '\U{FEFF}'
  }

  predicate IsBlank(s: string) {
    forall i :: 0 <= i < |s| ==> IsWhitespace(s[i])
  }

  /** Drops the leading whitespace. */
  function TrimStart(s: string): (r: string)
    ensures |r| <= |s| && r == s[|s| - |r|..]
    ensures r != [] ==> !IsWhitespace(r[0])
    ensures forall i :: 0 <= i < |s| - |r| ==> IsWhitespace(s[i])
  {
    if s != [] && IsWhitespace(s[0]) then TrimStart(s[1..]) else s
  }

  /** Drops the trailing whitespace. */
  function TrimEnd(s: string): (r: string)
    ensures |r| <= |s| && r == s[..|r|]
    ensures r != [] ==> !IsWhitespace(r[|r| - 1])
    ensures forall i :: |r| <= i < |s| ==> IsWhitespace(s[i])
  {
    if s != [] && IsWhitespace(s[|s| - 1]) then TrimEnd(s[..|s| - 1]) else s
  }

  /** `r` sits at position `k` of `s` with only whitespace before and after
      it. */
  predicate InfixBetweenBlanks(s: string, r: string, k: nat) {
    k + |r| <= |s| && r == s[k..k + |r|] && IsBlank(s[..k]) && IsBlank(s[k + |r|..])
  }

  /** `s.trim()`: the longest infix of `s` that neither starts nor ends with
      whitespace, cut out of `s` by removing only whitespace. */
  function Trim(s: string): (r: string)
    ensures exists k :: 0 <= k <= |s| && r <= s[k..]
    ensures r != [] ==> !IsWhitespace(r[0]) && !IsWhitespace(r[|r| - 1])
    ensures exists k: nat :: InfixBetweenBlanks(s, r, k)
  {
    var t := TrimStart(s);
    var r := TrimEnd(t);
    TrimAt(s);
    assert r <= s[|s| - |t|..];
    r
  }

  /** Trimming cuts `s` after its leading whitespace and before the trailing
      whitespace of what is left. */
  lemma TrimAt(s: string)
    ensures InfixBetweenBlanks(s, TrimEnd(TrimStart(s)), |s| - |TrimStart(s)|)
  {
    BetweenBlanks(s, TrimStart(s), TrimEnd(TrimStart(s)));
  }

  /** A whitespace prefix cut off `s` leaves `t`, and a whitespace suffix cut
      off `t` leaves `r`: then `r` lies between blanks in `s`. */
  lemma BetweenBlanks(s: string, t: string, r: string)
    requires |t| <= |s| && t == s[|s| - |t|..] && forall i :: 0 <= i < |s| - |t| ==> IsWhitespace(s[i])
    requires |r| <= |t| && r == t[..|r|] && forall i :: |r| <= i < |t| ==> IsWhitespace(t[i])
    ensures InfixBetweenBlanks(s, r, |s| - |t|)
  {
    var k := |s| - |t|;
    assert s[k..k + |r|] == t[..|r|];
    assert s[k + |r|..] == t[|r|..];
  }

  /** `s.trim()` is empty exactly when `s` consists of whitespace only. */
  lemma TrimEmptyIffBlank(s: string)
    ensures Trim(s) == [] <==> IsBlank(s)
  {
  }

  /** `s.split(sep)` for a non-empty separator: the pieces between the
      occurrences of `sep`, found from the left without overlap. */
  function Split(s: string, sep: string): (parts: seq<string>)
    requires sep != []
    ensures |parts| >= 1
    decreases |s|
  {
    if |s| < |sep| then [s]
    else if s[..|sep|] == sep then [""] + Split(s[|sep|..], sep)
    else
      var rest := Split(s[1..], sep);
      [[s[0]] + rest[0]] + rest[1..]
  }

  /** `parts.join(sep)`. */
  function Join(parts: seq<string>, sep: string): string
    requires |parts| >= 1
  {
    if |parts| == 1 then parts[0] else parts[0] + sep + Join(parts[1..], sep)
  }

  /** Splitting loses nothing: joining the pieces again gives the string. */
  lemma {:induction false} JoinSplit(s: string, sep: string)
    requires sep != []
    ensures Join(Split(s, sep), sep) == s
    decreases |s|
  {
    if |s| < |sep| {
    } else if s[..|sep|] == sep {
      JoinSplit(s[|sep|..], sep);
      JoinEmptyFirst(Split(s[|sep|..], sep), sep);
      assert s == s[..|sep|] + s[|sep|..];
    } else {
      JoinSplit(s[1..], sep);
      JoinGrowFirst(s[0], Split(s[1..], sep), sep);
      assert s == [s[0]] + s[1..];
    }
  }

  /** An empty first piece contributes only the separator. */
  lemma JoinEmptyFirst(parts: seq<string>, sep: string)
    requires |parts| >= 1
    ensures Join([""] + parts, sep) == sep + Join(parts, sep)
  {
    assert ([""] + parts)[1..] == parts;
  }

  /** A character put in front of the first piece ends up in front of the
      joined string. */
  lemma JoinGrowFirst(c: char, parts: seq<string>, sep: string)
    requires |parts| >= 1
    ensures Join([[c] + parts[0]] + parts[1..], sep) == [c] + Join(parts, sep)
  {
    var grown := [[c] + parts[0]] + parts[1..];
    if |parts| > 1 {
      assert grown[1..] == parts[1..];
    }
  }

  /** The first piece of a split on a one-character separator is the prefix
      of `s` up to (not including) the first occurrence of that character. */
  lemma {:induction false} SplitHeadOnChar(s: string, c: char)
    ensures var h := Split(s, [c])[0];
      |h| <= |s| && h == s[..|h|] && c !in h && (|h| < |s| ==> s[|h|] == c)
    decreases |s|
  {
    if |s| >= 1 && s[..1] != [c] {
      SplitHeadOnChar(s[1..], c);
      var rest := Split(s[1..], [c]);
      assert s[0] != c by { assert s[..1] == [s[0]]; }
      assert Split(s, [c])[0] == [s[0]] + rest[0];
      assert s[..|rest[0]| + 1] == [s[0]] + s[1..][..|rest[0]|];
    } else if |s| >= 1 {
      assert s[0] == c by { assert s[..1] == [s[0]]; }
    }
  }

  /** Splitting on a character that does not occur gives the whole string. */
  lemma {:induction false} SplitWithoutChar(s: string, c: char)
    requires c !in s
    ensures Split(s, [c]) == [s]
    decreases |s|
  {
    if |s| >= 1 {
      assert s[..1] == [s[0]];
      SplitWithoutChar(s[1..], c);
      assert s == [s[0]] + s[1..];
    }
  }

  /** A word followed by the separator character splits off as the first
      piece. */
  lemma {:induction false} SplitAfterWord(w: string, c: char, rest: string)
    requires c !in w
    ensures Split(w + [c] + rest, [c]) == [w] + Split(rest, [c])
    decreases |w|
  {
    var s := w + [c] + rest;
    if w == [] {
      assert s[..1] == [c] && s[1..] == rest;
    } else {
      assert s[..1] == [w[0]];
      assert s[1..] == w[1..] + [c] + rest;
      SplitAfterWord(w[1..], c, rest);
      assert w == [w[0]] + w[1..];
    }
  }

  /** Joining words free of a one-character separator and splitting on that
      character again gives the words back. */
  lemma {:induction false} SplitJoin(words: seq<string>, c: char)
    requires |words| >= 1 && forall i :: 0 <= i < |words| ==> c !in words[i]
    ensures Split(Join(words, [c]), [c]) == words
  {
    if |words| == 1 {
      SplitWithoutChar(words[0], c);
    } else {
      SplitJoin(words[1..], c);
      SplitAfterWord(words[0], c, Join(words[1..], [c]));
      assert words == [words[0]] + words[1..];
    }
  }

  /** `s.split(' ')[0]`: the text before the first space. */
  function FirstWord(s: string): (w: string)
    ensures |w| <= |s| && w == s[..|w|] && ' ' !in w
    ensures |w| < |s| ==> s[|w|] == ' '
  {
    SplitHeadOnChar(s, ' ');
    Split(s, " ")[0]
  }

  /** `s.includes(t)`: `t` occurs in `s` as a contiguous piece. */
  predicate Contains(s: string, t: string)
    decreases |s|
  {
    t <= s || (s != [] && Contains(s[1..], t))
  }

  /** A string can only contain a piece no longer than itself. */
  lemma {:induction false} ContainsNoLonger(s: string, t: string)
    requires Contains(s, t)
    ensures |t| <= |s|
    decreases |s|
  {
    if !(t <= s) {
      ContainsNoLonger(s[1..], t);
    }
  }

  /** Splitting gives a single piece exactly when the separator does not
      occur. */
  lemma {:induction false} SplitOnePieceIffAbsent(s: string, sep: string)
    requires sep != []
    ensures |Split(s, sep)| == 1 <==> !Contains(s, sep)
    decreases |s|
  {
    if |s| < |sep| {
      if Contains(s, sep) {
        ContainsNoLonger(s, sep);
      }
    } else if s[..|sep|] == sep {
      assert sep <= s;
    } else {
      SplitOnePieceIffAbsent(s[1..], sep);
      assert !(sep <= s);
    }
  }

  /** The first piece of a split is a prefix of the string. */
  lemma {:induction false} SplitHeadIsPrefix(s: string, sep: string)
    requires sep != []
    ensures Split(s, sep)[0] <= s
    decreases |s|
  {
    if |s| >= |sep| && s[..|sep|] != sep {
      SplitHeadIsPrefix(s[1..], sep);
      assert s == [s[0]] + s[1..];
    }
  }

  /** No piece of a split contains the separator. */
  lemma {:induction false} SplitPiecesFree(s: string, sep: string)
    requires sep != []
    ensures forall i :: 0 <= i < |Split(s, sep)| ==> !Contains(Split(s, sep)[i], sep)
    decreases |s|
  {
    var parts := Split(s, sep);
    if |s| < |sep| {
      if Contains(s, sep) {
        ContainsNoLonger(s, sep);
      }
    } else if s[..|sep|] == sep {
      SplitPiecesFree(s[|sep|..], sep);
      assert !Contains("", sep);
      assert parts[1..] == Split(s[|sep|..], sep);
    } else {
      var rest := Split(s[1..], sep);
      SplitPiecesFree(s[1..], sep);
      SplitHeadIsPrefix(s[1..], sep);
      var head := [s[0]] + rest[0];
      assert head <= s by { assert s == [s[0]] + s[1..]; }
      assert !(sep <= head);
      assert head[1..] == rest[0];
      assert !Contains(head, sep);
      assert parts == [head] + rest[1..];
      forall i | 1 <= i < |parts|
        ensures !Contains(parts[i], sep)
      {
        assert parts[i] == rest[i];
      }
    }
  }

  /** `s.startsWith(prefix)`. */
  predicate StartsWith(s: string, prefix: string) {
    prefix <= s
  }

  function ToLowerChar(c: char): (d: char)
    ensures !('A' <= d <= 'Z')
    ensures 'A' <= c <= 'Z' ==> 'a' <= d <= 'z'
    ensures !('A' <= c <= 'Z') ==> d == c
  {
    if 'A' <= c <= 'Z' then (c as int - 'A' as int + 'a' as int) as char else c
  }

  /** The inverse of `ToLowerChar` on the ASCII letters. */
  function ToUpperChar(c: char): (d: char)
    ensures !('a' <= d <= 'z')
    ensures 'a' <= c <= 'z' ==> 'A' <= d <= 'Z' && ToLowerChar(d) == c
    ensures !('a' <= c <= 'z') ==> d == c
  {
    if 'a' <= c <= 'z' then (c as int - 'a' as int + 'A' as int) as char else c
  }

  /** `s.toLowerCase()` on the ASCII letters. */
  function Lower(s: string): (r: string)
    ensures |r| == |s| && forall i :: 0 <= i < |s| ==> r[i] == ToLowerChar(s[i])
  {
    seq(|s|, i requires 0 <= i < |s| => ToLowerChar(s[i]))
  }

  /** `s.toUpperCase()` on the ASCII letters. */
  function Upper(s: string): (r: string)
    ensures |r| == |s| && forall i :: 0 <= i < |s| ==> r[i] == ToUpperChar(s[i])
  {
    seq(|s|, i requires 0 <= i < |s| => ToUpperChar(s[i]))
  }

  /** `a.toLowerCase().includes(b.toLowerCase())`. */
  predicate ContainsIgnoringCase(a: string, b: string) {
    Contains(Lower(a), Lower(b))
  }
}
