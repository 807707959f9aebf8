/**
 * The string primitives of JavaScript that the modelled code relies on:
 * the white-space class shared by `String.prototype.trim`, `\s` and `\S`,
 * `trim`, `startsWith`/`endsWith`, `split` on one character, `split(/\s+/)`
 * and the decimal rendering of a non-negative integer (`Number.prototype.toString`).
 */
module Strings {

  /** ECMAScript WhiteSpace (TAB, VT, FF, SPACE, NBSP, ZWNBSP and the
      Unicode category Zs) together with LineTerminator (LF, CR, LS, PS). */
  predicate IsSpace(c: char) {
    || c == '\t' || c == '\n' || c == '\U{000B}' || c == '\U{000C}' || c == '\r'
    || c == ' ' || c == '\U{00A0}' || c == '\U{1680}'
    || ('\U{2000}' <= c <= '\U{200A}')
    || c == '\U{2028}' || c == '\U{2029}' || c == '\U{202F}' || c == '\U{205F}'
    || c == '\U{3000}' || c == '\U{FEFF}'
  }

  /** Every character is white space (the empty string included). */
  predicate IsBlank(s: string) {
    forall i | 0 <= i < |s| :: IsSpace(s[i])
  }

  predicate StartsWith(s: string, prefix: string) {
    |prefix| <= |s| && s[..|prefix|] == prefix
  }

  predicate EndsWith(s: string, suffix: string) {
    |suffix| <= |s| && s[|s| - |suffix|..] == suffix
  }

  /** `trimStart`: drops the leading white space and nothing else. */
  function TrimStart(s: string): (r: string)
    ensures |r| <= |s| && r == s[|s| - |r|..]
    ensures r == [] || !IsSpace(r[0])
    decreases |s|
  {
    if s != [] && IsSpace(s[0]) then TrimStart(s[1..]) else s
  }

  /** What `trimStart` drops is white space. */
  lemma {:induction false} TrimStartDropsBlank(s: string)
    ensures IsBlank(s[..|s| - |TrimStart(s)|])
    decreases |s|
  {
    if s != [] && IsSpace(s[0]) {
      TrimStartDropsBlank(s[1..]);
      var n := |s| - |TrimStart(s)|;
      assert forall i | 1 <= i < n :: s[..n][i] == s[1..][..n - 1][i - 1];
    }
  }

  /** `trimEnd`: drops the trailing white space and nothing else. */
  function TrimEnd(s: string): (r: string)
    ensures |r| <= |s| && r == s[..|r|]
    ensures r == [] || !IsSpace(r[|r| - 1])
    decreases |s|
  {
    if s != [] && IsSpace(s[|s| - 1]) then TrimEnd(s[..|s| - 1]) else s
  }

  /** What `trimEnd` drops is white space. */
  lemma {:induction false} TrimEndDropsBlank(s: string)
    ensures IsBlank(s[|TrimEnd(s)|..])
    decreases |s|
  {
    if s != [] && IsSpace(s[|s| - 1]) {
      TrimEndDropsBlank(s[..|s| - 1]);
      var r := TrimEnd(s);
      assert s[|r|..] == s[..|s| - 1][|r|..] + [s[|s| - 1]];
    }
  }

  /** `trim`: drops the white space at both ends. */
  function Trim(s: string): (r: string)
    ensures |r| <= |s|
    ensures r == [] || (!IsSpace(r[0]) && !IsSpace(r[|r| - 1]))
  {
    TrimEnd(TrimStart(s))
  }

  /** `trim` keeps the infix of `s` between a blank prefix and a blank suffix. */
  lemma TrimIsInfix(s: string)
    ensures exists a, b | 0 <= a <= b <= |s| :: Trim(s) == s[a..b] && IsBlank(s[..a]) && IsBlank(s[b..])
  {
    var t := TrimStart(s);
    var r := TrimEnd(t);
    var a := |s| - |t|;
    TrimStartDropsBlank(s);
    TrimEndDropsBlank(t);
    assert s[a..][..|r|] == s[a..a + |r|];
    assert s[a + |r|..] == t[|r|..];
  }

  /** A string trims to nothing exactly when it is blank, which is what the source's
      `!value.trim()` tests. */
  lemma TrimEmptyIffBlank(s: string)
    ensures Trim(s) == [] <==> IsBlank(s)
  {
    var t := TrimStart(s);
    var r := TrimEnd(t);
    var a := |s| - |t|;
    if r == [] {
      TrimStartDropsBlank(s);
      TrimEndDropsBlank(t);
      assert t[|r|..] == t;
      forall i | 0 <= i < |s| ensures IsSpace(s[i]) {
        if i < a { assert s[..a][i] == s[i]; } else { assert t[i - a] == s[i]; }
      }
    } else {
      assert r[0] == t[0] == s[a];
    }
  }

  /** A leading white-space character is one of those `trimStart` drops. */
  lemma TrimStartAfterSpace(c: char, t: string)
    requires IsSpace(c)
    ensures TrimStart([c] + t) == TrimStart(t)
  {
    assert ([c] + t)[1..] == t;
  }

  /** A string with no white space at either end trims to itself. */
  lemma TrimUnchanged(t: string)
    requires t == [] || (!IsSpace(t[0]) && !IsSpace(t[|t| - 1]))
    ensures Trim(t) == t
  {
    assert TrimStart(t) == t;
    assert TrimEnd(t) == t;
  }

  /** Words joined by single spaces have nothing to trim. */
  lemma JoinedWordsTrimmed(words: seq<string>)
    requires |words| >= 1
    requires forall k | 0 <= k < |words| :: IsWord(words[k])
    ensures Trim(JoinWith(words, ' ')) == JoinWith(words, ' ')
  {
    var s := JoinWith(words, ' ');
    JoinEnds(words, ' ');
    var first, last := words[0], words[|words| - 1];
    assert IsWord(first) && IsWord(last);
    WordTail(first);
    WordEnd(last);
    FirstOfPrefix(s, first);
    LastOfSuffix(s, last);
    TrimUnchanged(s);
  }

  lemma WordEnd(w: string)
    requires IsWord(w)
    ensures !IsSpace(w[|w| - 1])
  {
  }

  lemma FirstOfPrefix(s: string, p: string)
    requires StartsWith(s, p) && p != []
    ensures s != [] && s[0] == p[0]
  {
    assert s[..|p|][0] == s[0];
  }

  lemma LastOfSuffix(s: string, p: string)
    requires EndsWith(s, p) && p != []
    ensures s != [] && s[|s| - 1] == p[|p| - 1]
  {
    assert s[|s| - |p|..][|p| - 1] == s[|s| - 1];
  }

  /** Trimming twice is trimming once. */
  lemma TrimIdempotent(s: string)
    ensures Trim(Trim(s)) == Trim(s)
  {
    TrimUnchanged(Trim(s));
  }

  /** The number of occurrences of `c` in `s`. */
  function Occurrences(s: string, c: char): (n: nat)
    ensures n <= |s|
  {
    if s == [] then 0 else (if s[0] == c then 1 else 0) + Occurrences(s[1..], c)
  }

  /** `s.split(sep)` for a one-character separator: the pieces between the separators. */
  function Split(s: string, sep: char): (parts: seq<string>)
    ensures |parts| >= 1
    decreases |s|
  {
    if s == [] then [""]
    else
      var rest := Split(s[1..], sep);
      if s[0] == sep then [""] + rest
      else [[s[0]] + rest[0]] + rest[1..]
  }

  /** `parts.join(sep)`. */
  function JoinWith(parts: seq<string>, sep: char): string
    requires |parts| >= 1
  {
    if |parts| == 1 then parts[0] else parts[0] + [sep] + JoinWith(parts[1..], sep)
  }

  /** `split` yields one piece more than there are separators. */
  lemma {:induction false} SplitLength(s: string, sep: char)
    ensures |Split(s, sep)| == Occurrences(s, sep) + 1
    decreases |s|
  {
    if s != [] {
      SplitLength(s[1..], sep);
    }
  }

  /** No piece of a `split` holds the separator, and joining the pieces back gives the input. */
  lemma SplitJoin(s: string, sep: char)
    ensures forall k | 0 <= k < |Split(s, sep)| :: sep !in Split(s, sep)[k]
    ensures JoinWith(Split(s, sep), sep) == s
  {
    SplitPiecesFree(s, sep);
    SplitJoinBack(s, sep);
  }

  lemma {:induction false} SplitPiecesFree(s: string, sep: char)
    ensures forall k | 0 <= k < |Split(s, sep)| :: sep !in Split(s, sep)[k]
    decreases |s|
  {
    if s != [] {
      SplitPiecesFree(s[1..], sep);
      var rest := Split(s[1..], sep);
      var parts := Split(s, sep);
      forall k | 0 <= k < |parts| ensures sep !in parts[k] {
        if s[0] == sep {
          if k > 0 {
            assert parts[k] == rest[k - 1];
          }
        } else if k == 0 {
          assert parts[0] == [s[0]] + rest[0];
        } else {
          assert parts[k] == rest[k];
        }
      }
    }
  }

  lemma {:induction false} SplitJoinBack(s: string, sep: char)
    ensures JoinWith(Split(s, sep), sep) == s
    decreases |s|
  {
    if s != [] {
      var c, tail := s[0], s[1..];
      SplitJoinBack(tail, sep);
      var rest := Split(tail, sep);
      assert s == [c] + tail;
      if c == sep {
        JoinAfterEmpty(rest, sep, tail);
      } else {
        JoinGlued(c, rest, sep, tail);
      }
    }
  }

  /** An empty first piece contributes just the separator. */
  lemma JoinAfterEmpty(rest: seq<string>, sep: char, tail: string)
    requires |rest| >= 1 && JoinWith(rest, sep) == tail
    ensures JoinWith([""] + rest, sep) == [sep] + tail
  {
    var parts := [""] + rest;
    assert parts[1..] == rest;
  }

  /** A character glued onto the first piece comes first in the join. */
  lemma JoinGlued(c: char, rest: seq<string>, sep: char, tail: string)
    requires |rest| >= 1 && JoinWith(rest, sep) == tail
    ensures JoinWith([[c] + rest[0]] + rest[1..], sep) == [c] + tail
  {
    var parts := [[c] + rest[0]] + rest[1..];
    if |rest| > 1 {
      assert parts[1..] == rest[1..];
      var t := JoinWith(rest[1..], sep);
      assert tail == rest[0] + [sep] + t;
      assert JoinWith(parts, sep) == ([c] + rest[0]) + [sep] + t;
    }
  }

  /** Splitting a separator-free chunk followed by anything glues the chunk onto the first piece. */
  lemma {:induction false} SplitAfterChunk(w: string, rest: string, sep: char)
    requires sep !in w
    ensures var parts := Split(rest, sep);
      Split(w + rest, sep) == [w + parts[0]] + parts[1..]
    decreases |w|
  {
    if w == [] {
      var parts := Split(rest, sep);
      assert w + rest == rest;
      assert w + parts[0] == parts[0];
      assert parts == [parts[0]] + parts[1..];
    } else {
      var s := w + rest;
      assert s[0] == w[0] && s[1..] == w[1..] + rest;
      SplitAfterChunk(w[1..], rest, sep);
      assert [w[0]] + (w[1..] + Split(rest, sep)[0]) == w + Split(rest, sep)[0];
    }
  }

  /** Joining separator-free pieces and splitting again gives the pieces back. */
  lemma {:induction false} JoinSplit(parts: seq<string>, sep: char)
    requires |parts| >= 1
    requires forall k | 0 <= k < |parts| :: sep !in parts[k]
    ensures Split(JoinWith(parts, sep), sep) == parts
    decreases |parts|
  {
    if |parts| == 1 {
      SplitAfterChunk(parts[0], "", sep);
      assert parts[0] + "" == parts[0];
    } else {
      var tail := JoinWith(parts[1..], sep);
      SplitAfterChunk(parts[0], [sep] + tail, sep);
      JoinSplit(parts[1..], sep);
      assert ([sep] + tail)[1..] == tail;
      assert Split([sep] + tail, sep) == [""] + parts[1..];
      assert JoinWith(parts, sep) == parts[0] + ([sep] + tail);
      assert parts[0] + "" == parts[0];
      assert parts == [parts[0]] + parts[1..];
    }
  }

  /** A join starts with its first piece and ends with its last one. */
  lemma {:induction false} JoinEnds(parts: seq<string>, sep: char)
    requires |parts| >= 1
    ensures StartsWith(JoinWith(parts, sep), parts[0])
    ensures EndsWith(JoinWith(parts, sep), parts[|parts| - 1])
    decreases |parts|
  {
    if |parts| > 1 {
      JoinEnds(parts[1..], sep);
      var tail := JoinWith(parts[1..], sep);
      var s := parts[0] + [sep] + tail;
      assert s[..|parts[0]|] == parts[0];
      assert s[|s| - |parts[|parts| - 1]|..] == tail[|tail| - |parts[|parts| - 1]|..];
    }
  }

  /** `s.split(/\s+/)`: the pieces separated by maximal runs of white space
      (a leading or trailing run yields an empty first or last piece). */
  function SplitOnSpaces(s: string): (parts: seq<string>)
    ensures |parts| >= 1
    decreases |s|
  {
    if s == [] then [""]
    else if IsSpace(s[0]) then [""] + SplitOnSpaces(TrimStart(s))
    else
      var rest := SplitOnSpaces(s[1..]);
      [[s[0]] + rest[0]] + rest[1..]
  }

  /** A word: non-empty and free of white space. */
  predicate IsWord(w: string) {
    w != [] && forall i | 0 <= i < |w| :: !IsSpace(w[i])
  }

  /** Splitting a word followed by anything glues the word onto the first piece. */
  lemma {:induction false} SplitOnSpacesAfterWord(w: string, rest: string)
    requires IsWord(w)
    ensures var parts := SplitOnSpaces(rest);
      SplitOnSpaces(w + rest) == [w + parts[0]] + parts[1..]
    decreases |w|
  {
    var s := w + rest;
    var parts := SplitOnSpaces(rest);
    assert s[0] == w[0];
    WordTail(w);
    NonSpaceStep(s);
    if |w| == 1 {
      assert s[1..] == rest;
      assert [s[0]] == w;
    } else {
      var w' := w[1..];
      SplitOnSpacesAfterWord(w', rest);
      assert s[1..] == w' + rest;
      HeadTail(w' + parts[0], parts[1..]);
      ConsConcat(w, parts[0]);
    }
  }

  lemma HeadTail<T>(x: T, ys: seq<T>)
    ensures ([x] + ys)[0] == x && ([x] + ys)[1..] == ys
  {
  }

  /** A word starts with a non-space, and what follows its first character is a word
      when it is not empty. */
  lemma WordTail(w: string)
    requires IsWord(w)
    ensures !IsSpace(w[0])
    ensures |w| > 1 ==> IsWord(w[1..])
  {
    if |w| > 1 {
      assert forall i | 0 <= i < |w| - 1 :: w[1..][i] == w[i + 1];
    }
  }

  lemma ConsConcat(w: string, t: string)
    requires w != []
    ensures [w[0]] + (w[1..] + t) == w + t
  {
  }

  /** The first piece of a string opening with a non-space begins with that character. */
  lemma NonSpaceStep(s: string)
    requires s != [] && !IsSpace(s[0])
    ensures var rest := SplitOnSpaces(s[1..]);
      SplitOnSpaces(s) == [[s[0]] + rest[0]] + rest[1..]
  {
  }

  /** One space before a word-initial string contributes an empty first piece. */
  lemma SplitOnSpacesAfterSpace(t: string)
    requires t != [] && !IsSpace(t[0])
    ensures SplitOnSpaces([' '] + t) == [""] + SplitOnSpaces(t)
  {
    var s := [' '] + t;
    assert s[1..] == t;
    assert TrimStart(s) == TrimStart(t) == t;
  }

  /** Words joined by single spaces split back into the same words. */
  lemma {:induction false} SplitOnSpacesJoin(words: seq<string>)
    requires |words| >= 1
    requires forall k | 0 <= k < |words| :: IsWord(words[k])
    ensures SplitOnSpaces(JoinWith(words, ' ')) == words
    decreases |words|
  {
    var w := words[0];
    if |words| == 1 {
      SplitOnSpacesAfterWord(w, "");
      assert w + "" == w;
    } else {
      var tail := JoinWith(words[1..], ' ');
      var rest := [' '] + tail;
      assert JoinWith(words, ' ') == w + rest;
      SplitOnSpacesAfterWord(w, rest);
      JoinStartsWithWord(words[1..]);
      SplitOnSpacesAfterSpace(tail);
      SplitOnSpacesJoin(words[1..]);
      assert w + "" == w;
      assert words == [words[0]] + words[1..];
    }
  }

  /** A space-joined list of words starts with the first word's first character. */
  lemma JoinStartsWithWord(words: seq<string>)
    requires |words| >= 1 && IsWord(words[0])
    ensures JoinWith(words, ' ') != [] && JoinWith(words, ' ')[0] == words[0][0]
  {
  }

  /** The decimal digit character for `d`. */
  function Digit(d: nat): (c: char)
    requires d < 10
    ensures '0' <= c <= '9' && c as int - '0' as int == d
  {
    ('0' as int + d) as char
  }

  /** `n.toString()` for a non-negative integer: its decimal digits, without leading zeros. */
  function NatToString(n: nat): (s: string)
    ensures |s| >= 1 && forall i | 0 <= i < |s| :: '0' <= s[i] <= '9'
    ensures |s| > 1 ==> s[0] != '0'
    decreases n
  {
    if n < 10 then [Digit(n)] else NatToString(n / 10) + [Digit(n % 10)]
  }

  /** The value of a string of decimal digits; the reference that `NatToString` is checked against. */
  function DecimalValue(s: string): nat
    requires forall i | 0 <= i < |s| :: '0' <= s[i] <= '9'
  {
    if s == [] then 0 else DecimalValue(s[..|s| - 1]) * 10 + (s[|s| - 1] as int - '0' as int)
  }

  /** Reading back the digits that `NatToString` writes yields the number. */
  lemma {:induction false} DecimalRoundTrip(n: nat)
    ensures DecimalValue(NatToString(n)) == n
    decreases n
  {
    var s := NatToString(n);
    if n >= 10 {
      DecimalRoundTrip(n / 10);
      assert s[..|s| - 1] == NatToString(n / 10);
    }
  }
}
