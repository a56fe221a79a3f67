/** The Python string operations the ingestion scripts are built from:
    character classes, `lower()`, `strip()`, `re.sub` of a character class,
    collapsing runs of a character, `split`, `join`, `replace` and slicing.
    Character classes are those of ASCII. */
module Text {

  /** `\d` and `[0-9]`. */
  predicate IsAsciiDigit(c: char) { '0' <= c <= '9' }

  predicate IsAsciiUpper(c: char) { 'A' <= c <= 'Z' }

  predicate IsAsciiLower(c: char) { 'a' <= c <= 'z' }

  /** `[a-zA-Z0-9]`. */
  predicate IsAsciiAlnum(c: char) { IsAsciiDigit(c) || IsAsciiUpper(c) || IsAsciiLower(c) }

  /** `\w`, that is `[0-9a-zA-Z_]`. */
  predicate IsWordChar(c: char) { IsAsciiAlnum(c) || c == '_' }

  /** `[a-z0-9_]`: the characters a lower-cased identifier is made of. */
  predicate IsLowerWordChar(c: char) { IsAsciiLower(c) || IsAsciiDigit(c) || c == '_' }

  /** The ASCII characters for which `str.isspace()` holds. */
  predicate IsSpace(c: char) {
    c == ' ' || c == '\t' || c == '\n' || c == '\r' || c == '\U{0B}' || c == '\U{0C}'
    || ('\U{1C}' <= c <= '\U{1F}')
  }

  predicate IsUnderscore(c: char) { c == '_' }

  predicate AllChars(s: string, p: char -> bool) {
    forall i :: 0 <= i < |s| ==> p(s[i])
  }

  function LowerChar(c: char): (r: char)
    ensures !IsAsciiUpper(r)
    ensures IsAsciiUpper(c) ==> IsAsciiLower(r)
    ensures !IsAsciiUpper(c) ==> r == c
  {
    if IsAsciiUpper(c) then (c as int + 32) as char else c
  }

  /** `str.lower()`. */
  function Lower(s: string): (r: string)
    ensures |r| == |s|
    ensures forall i :: 0 <= i < |s| ==> r[i] == LowerChar(s[i])
  {
    seq(|s|, i requires 0 <= i < |s| => LowerChar(s[i]))
  }

  lemma LowerKeeps(s: string)
    requires forall i :: 0 <= i < |s| ==> !IsAsciiUpper(s[i])
    ensures Lower(s) == s
  {
  }

  /** `re.sub('[^...]', sub, s)` where `keep` is the class `...`: every
      character outside the class is replaced by `sub`. */
  function SubstituteOutside(s: string, keep: char -> bool, sub: char): (r: string)
    ensures |r| == |s|
    ensures forall i :: 0 <= i < |s| ==> r[i] == if keep(s[i]) then s[i] else sub
  {
    seq(|s|, i requires 0 <= i < |s| => if keep(s[i]) then s[i] else sub)
  }

  lemma SubstituteOutsideKeeps(s: string, keep: char -> bool, sub: char)
    requires forall i :: 0 <= i < |s| ==> keep(s[i]) || s[i] == sub
    ensures SubstituteOutside(s, keep, sub) == s
  {
  }

  /** The leading characters satisfying `drop` removed. */
  function TrimStart(s: string, drop: char -> bool): (r: string)
    ensures |r| <= |s| && r == s[|s| - |r|..]
    ensures |r| > 0 ==> !drop(r[0])
    ensures forall i :: 0 <= i < |s| - |r| ==> drop(s[i])
    decreases |s|
  {
    if |s| > 0 && drop(s[0]) then TrimStart(s[1..], drop) else s
  }

  /** The trailing characters satisfying `drop` removed. */
  function TrimEnd(s: string, drop: char -> bool): (r: string)
    ensures |r| <= |s| && r == s[..|r|]
    ensures |r| > 0 ==> !drop(r[|r| - 1])
    ensures forall i :: |r| <= i < |s| ==> drop(s[i])
    decreases |s|
  {
    if |s| > 0 && drop(s[|s| - 1]) then TrimEnd(s[..|s| - 1], drop) else s
  }

  /** `s.strip(chars)`: the longest middle slice of `s` that neither starts
      nor ends with a character of the class `drop`. */
  function StripBy(s: string, drop: char -> bool): (r: string)
    ensures |r| > 0 ==> !drop(r[0]) && !drop(r[|r| - 1])
    ensures exists i, j ::
              && 0 <= i <= j <= |s| && r == s[i..j]
              && (forall k :: 0 <= k < i ==> drop(s[k]))
              && (forall k :: j <= k < |s| ==> drop(s[k]))
  {
    var t := TrimStart(s, drop);
    var r := TrimEnd(t, drop);
    assert r == s[|s| - |t|..|s| - |t| + |r|];
    r
  }

  /** `str.strip()` with no argument. */
  function Strip(s: string): string { StripBy(s, IsSpace) }

  /** A string that neither starts nor ends with a dropped character is its
      own strip. */
  lemma {:induction false} StripByKeeps(s: string, drop: char -> bool)
    requires |s| > 0 ==> !drop(s[0]) && !drop(s[|s| - 1])
    ensures StripBy(s, drop) == s
  {
    var t := TrimStart(s, drop);
    assert |t| == |s|;
    var r := TrimEnd(t, drop);
    assert |r| == |t|;
  }

  /** Stripping keeps a property every character has. */
  lemma StripByAllChars(s: string, drop: char -> bool, p: char -> bool)
    requires AllChars(s, p)
    ensures AllChars(StripBy(s, drop), p)
  {
    var t := TrimStart(s, drop);
    var r := TrimEnd(t, drop);
    assert StripBy(s, drop) == r;
    forall k | 0 <= k < |r| ensures p(r[k]) {
      assert r[k] == t[k] == s[|s| - |t| + k];
    }
  }

  /** Stripping twice strips no more than stripping once. */
  lemma StripByIdempotent(s: string, drop: char -> bool)
    ensures StripBy(StripBy(s, drop), drop) == StripBy(s, drop)
  {
    StripByKeeps(StripBy(s, drop), drop);
  }

  predicate NoDoubled(s: string, c: char) {
    forall i :: 0 <= i < |s| - 1 ==> !(s[i] == c && s[i + 1] == c)
  }

  /** `re.sub(c + '+', c, s)`, equally `re.sub(c + c + '+', c, s)`: every
      run of `c` shortened to one `c`. */
  function CollapseRuns(s: string, c: char): (r: string)
    ensures |r| <= |s|
    ensures NoDoubled(r, c)
    ensures forall x :: x in r ==> x in s
    ensures |s| > 0 ==> |r| > 0 && r[0] == s[0] && r[|r| - 1] == s[|s| - 1]
    decreases |s|
  {
    if |s| <= 1 then s
    else if s[0] == c && s[1] == c then CollapseRuns(s[1..], c)
    else [s[0]] + CollapseRuns(s[1..], c)
  }

  /** Collapsing leaves a string without doubled `c` as it is. */
  lemma {:induction false} CollapseRunsKeeps(s: string, c: char)
    requires NoDoubled(s, c)
    ensures CollapseRuns(s, c) == s
    decreases |s|
  {
    if |s| > 1 {
      assert !(s[0] == c && s[1] == c);
      CollapseRunsKeeps(s[1..], c);
    }
  }

  /** Position `i` of `s` continues a run of `c`: it and the position before
      it both hold `c`. */
  predicate RepeatAt(s: string, c: char, i: int) {
    0 < i < |s| && s[i - 1] == c && s[i] == c
  }

  /** The characters of `s` kept in order, except those continuing a run of
      `c`: an independent reading of the collapse, position by position. */
  function DropRepeats(s: string, c: char): (r: string)
    ensures |r| <= |s|
  {
    KeepFrom(s, c, 0)
  }

  /** The characters of `s` from position `i` on that do not continue a run
      of `c`. */
  function KeepFrom(s: string, c: char, i: nat): (r: string)
    requires i <= |s|
    ensures |r| <= |s| - i
    decreases |s| - i
  {
    if i == |s| then []
    else (if RepeatAt(s, c, i) then [] else [s[i]]) + KeepFrom(s, c, i + 1)
  }

  /** Appending one character to the input of the collapse appends it to
      the output, unless it continues a run of `c`. */
  lemma {:induction false} CollapseRunsAppend(s: string, x: char, c: char)
    ensures CollapseRuns(s + [x], c) ==
              CollapseRuns(s, c) + (if |s| > 0 && s[|s| - 1] == c && x == c then [] else [x])
    decreases |s|
  {
    var t := s + [x];
    if |s| >= 2 {
      assert t[0] == s[0] && t[1] == s[1];
      assert t[1..] == s[1..] + [x];
      CollapseRunsAppend(s[1..], x, c);
    }
  }

  /** The collapse keeps exactly the characters that do not continue a run
      of `c`, in their order. */
  lemma CollapseRunsDropsRepeats(s: string, c: char)
    ensures CollapseRuns(s, c) == DropRepeats(s, c)
  {
    if s != [] {
      CollapseRunsSuffix(s, c, 0);
      assert s[0..] == s;
    }
  }

  /** The collapse of a suffix keeps its first character, then the
      characters after it that do not continue a run. */
  lemma {:induction false} CollapseRunsSuffix(s: string, c: char, i: nat)
    requires i < |s|
    ensures CollapseRuns(s[i..], c) == [s[i]] + KeepFrom(s, c, i + 1)
    decreases |s| - i
  {
    var t := s[i..];
    if |t| >= 2 {
      assert t[0] == s[i] && t[1] == s[i + 1] && t[1..] == s[i + 1..];
      CollapseRunsSuffix(s, c, i + 1);
    }
  }

  /** Every character class the input lives in, the result lives in. */
  lemma CollapseRunsAllChars(s: string, c: char, p: char -> bool)
    requires AllChars(s, p)
    ensures AllChars(CollapseRuns(s, c), p)
  {
    var r := CollapseRuns(s, c);
    forall i | 0 <= i < |r| ensures p(r[i]) {
      assert r[i] in s;
    }
  }

  lemma PrefixNoDoubled(s: string, c: char, n: nat)
    requires NoDoubled(s, c) && n <= |s|
    ensures NoDoubled(s[..n], c)
  {
  }

  /** `sep.join(parts)`. */
  function Join(parts: seq<string>, sep: string): string
    decreases |parts|
  {
    if |parts| == 0 then ""
    else if |parts| == 1 then parts[0]
    else parts[0] + sep + Join(parts[1..], sep)
  }

  /** `s.split(sep)` for a one-character separator: the pieces between the
      occurrences of `sep`, empty pieces included. */
  function Split(s: string, sep: char): (parts: seq<string>)
    ensures |parts| >= 1
    ensures forall k :: 0 <= k < |parts| ==> sep !in parts[k]
    decreases |s|
  {
    if |s| == 0 then [""]
    else
      var rest := Split(s[1..], sep);
      if s[0] == sep then [""] + rest
      else [[s[0]] + rest[0]] + rest[1..]
  }

  /** Splitting loses nothing: joining the pieces back gives the input. */
  lemma {:induction false} SplitJoin(s: string, sep: char)
    ensures Join(Split(s, sep), [sep]) == s
    decreases |s|
  {
    if |s| > 0 {
      var rest := Split(s[1..], sep);
      SplitJoin(s[1..], sep);
      if s[0] != sep && |rest| > 1 {
        var parts := Split(s, sep);
        assert parts[1..] == rest[1..];
        assert Join(parts, [sep]) == [s[0]] + rest[0] + [sep] + Join(rest[1..], [sep]);
      }
    }
  }

  /** The first piece of a split is the text before the first separator. */
  lemma {:induction false} SplitFirst(s: string, sep: char)
    ensures var p := Split(s, sep)[0];
      |p| <= |s| && p == s[..|p|] && (|p| < |s| ==> s[|p|] == sep)
    decreases |s|
  {
    if |s| > 0 && s[0] != sep {
      SplitFirst(s[1..], sep);
    }
  }

  /** A string made only of separators splits into empty pieces. */
  lemma {:induction false} SplitOnlySeparators(s: string, sep: char)
    requires forall i :: 0 <= i < |s| ==> s[i] == sep
    ensures forall k :: 0 <= k < |Split(s, sep)| ==> Split(s, sep)[k] == ""
    decreases |s|
  {
    if |s| > 0 {
      SplitOnlySeparators(s[1..], sep);
    }
  }

  /** A string without the separator is a single piece. */
  lemma {:induction false} SplitWithout(s: string, sep: char)
    requires sep !in s
    ensures Split(s, sep) == [s]
    decreases |s|
  {
    if |s| > 0 {
      assert sep !in s[1..];
      SplitWithout(s[1..], sep);
      assert [s[0]] + s[1..] == s;
    }
  }

  /** The text before the first separator is the first piece, and the rest
      splits on its own. */
  lemma {:induction false} SplitAtFirst(a: string, b: string, sep: char)
    requires sep !in a
    ensures Split(a + [sep] + b, sep) == [a] + Split(b, sep)
    decreases |a|
  {
    if |a| == 0 {
      assert a + [sep] + b == [sep] + b;
      assert ([sep] + b)[1..] == b;
    } else {
      assert (a + [sep] + b)[1..] == a[1..] + [sep] + b;
      assert sep !in a[1..];
      SplitAtFirst(a[1..], b, sep);
      assert [a[0]] + a[1..] == a;
    }
  }

  /** `s.rfind(c)`: the last position of `c`, or -1. */
  function LastIndexOf(s: string, c: char): (i: int)
    ensures -1 <= i < |s|
    ensures 0 <= i ==> s[i] == c
    ensures forall k :: i < k < |s| ==> s[k] != c
    decreases |s|
  {
    if s == [] then -1
    else if s[|s| - 1] == c then |s| - 1
    else LastIndexOf(s[..|s| - 1], c)
  }

  predicate StartsWith(s: string, p: string) {
    |p| <= |s| && s[..|p|] == p
  }

  /** `s.replace(pat, rep)`: occurrences found scanning from the left, each
      replaced, the scan resuming after it. */
  function ReplaceAll(s: string, pat: string, rep: string): string
    requires |pat| > 0
    decreases |s|
  {
    if |s| < |pat| then s
    else if s[..|pat|] == pat then rep + ReplaceAll(s[|pat|..], pat, rep)
    else [s[0]] + ReplaceAll(s[1..], pat, rep)
  }

  /** `pat` occurs in `s` starting at position `i`. */
  predicate OccursAt(s: string, pat: string, i: int) {
    0 <= i && i + |pat| <= |s| && s[i..i + |pat|] == pat
  }

  ghost predicate Occurs(s: string, pat: string) {
    exists i :: OccursAt(s, pat, i)
  }

  /** A position holding a character that `pat` does not contain lies
      outside every occurrence of `pat`. */
  lemma NotOccursAcross(s: string, pat: string, i: int, p: int)
    requires 0 <= i <= p < i + |pat| && p < |s| && s[p] !in pat
    ensures !OccursAt(s, pat, i)
  {
    if 0 <= i && i + |pat| <= |s| {
      assert s[i..i + |pat|][p - i] == s[p];
    }
  }

  /** Two texts without `pat`, joined by a character `pat` does not
      contain, have no `pat` either. */
  lemma AbsentAround(a: string, x: char, b: string, pat: string)
    requires !Occurs(a, pat) && !Occurs(b, pat) && x !in pat
    ensures !Occurs(a + [x] + b, pat)
  {
    var s := a + [x] + b;
    forall i ensures !OccursAt(s, pat, i) {
      if 0 <= i && i + |pat| <= |a| {
        assert s[i..i + |pat|] == a[i..i + |pat|];
        assert !OccursAt(a, pat, i);
      } else if |a| < i && i + |pat| <= |s| {
        assert s[i..i + |pat|] == b[i - |a| - 1..i - |a| - 1 + |pat|];
        assert !OccursAt(b, pat, i - |a| - 1);
      } else if 0 <= i <= |a| < i + |pat| && i + |pat| <= |s| {
        assert s[|a|] == x;
        NotOccursAcross(s, pat, i, |a|);
      }
    }
  }

  /** A text that lacks the first character of `pat` does not contain
      `pat`. */
  lemma AbsentWithoutFirst(s: string, pat: string)
    requires |pat| > 0 && pat[0] !in s
    ensures !Occurs(s, pat)
  {
    forall i ensures !OccursAt(s, pat, i) {
      if 0 <= i && i + |pat| <= |s| {
        assert s[i..i + |pat|][0] == s[i];
      }
    }
  }

  /** A text without `pat` is left as it is by the replacement. */
  lemma {:induction false} ReplaceAllAbsent(s: string, pat: string, rep: string)
    requires |pat| > 0 && !Occurs(s, pat)
    ensures ReplaceAll(s, pat, rep) == s
    decreases |s|
  {
    if |s| >= |pat| {
      assert !OccursAt(s, pat, 0);
      forall i | OccursAt(s[1..], pat, i) ensures false {
        assert s[1..][i..i + |pat|] == s[i + 1..i + 1 + |pat|];
        assert OccursAt(s, pat, i + 1);
      }
      ReplaceAllAbsent(s[1..], pat, rep);
    }
  }

  /** `pat` itself is replaced whole. */
  lemma ReplaceAllWhole(pat: string, rep: string)
    requires |pat| > 0
    ensures ReplaceAll(pat, pat, rep) == rep
  {
    assert pat[..|pat|] == pat;
    assert pat[|pat|..] == [];
  }

  /** No occurrence of `pat` spans the junction of `a` and `b`. */
  predicate NoStraddle(a: string, b: string, pat: string) {
    forall i :: 0 <= i < |a| < i + |pat| ==> !OccursAt(a + b, pat, i)
  }

  /** Dropping a prefix of `a` keeps the junction free of occurrences. */
  lemma NoStraddleDrop(a: string, b: string, pat: string, k: nat)
    requires k <= |a| && NoStraddle(a, b, pat)
    ensures NoStraddle(a[k..], b, pat)
  {
    var a', s := a[k..], a + b;
    assert s[k..] == a' + b;
    forall i | 0 <= i < |a'| < i + |pat| ensures !OccursAt(a' + b, pat, i) {
      if i + |pat| <= |a' + b| {
        assert (a' + b)[i..i + |pat|] == s[i + k..i + k + |pat|];
        assert !OccursAt(s, pat, i + k);
      }
    }
  }

  /** The replacement distributes over concatenation when no occurrence of
      `pat` spans the junction. */
  lemma {:induction false} ReplaceAllAppend(a: string, b: string, pat: string, rep: string)
    requires |pat| > 0
    requires NoStraddle(a, b, pat)
    ensures ReplaceAll(a + b, pat, rep) == ReplaceAll(a, pat, rep) + ReplaceAll(b, pat, rep)
    decreases |a|
  {
    if a == [] {
      assert a + b == b;
    } else if |a + b| < |pat| {
    } else if (a + b)[..|pat|] == pat {
      MatchAtJunctionFront(a, b, pat, rep);
      var x, y, z := rep, ReplaceAll(a[|pat|..], pat, rep), ReplaceAll(b, pat, rep);
      NoStraddleDrop(a, b, pat, |pat|);
      ReplaceAllAppend(a[|pat|..], b, pat, rep);
      assert x + (y + z) == (x + y) + z;
    } else {
      var x, y, z := [a[0]], ReplaceAll(a[1..], pat, rep), ReplaceAll(b, pat, rep);
      SkipAtJunctionFront(a, b, pat, rep);
      NoStraddleDrop(a, b, pat, 1);
      ReplaceAllAppend(a[1..], b, pat, rep);
      assert x + (y + z) == (x + y) + z;
    }
  }

  /** An occurrence at the front of `a + b` lies inside `a`. */
  lemma MatchAtJunctionFront(a: string, b: string, pat: string, rep: string)
    requires a != [] && |pat| > 0 && NoStraddle(a, b, pat)
    requires |pat| <= |a + b| && (a + b)[..|pat|] == pat
    ensures |pat| <= |a|
    ensures ReplaceAll(a + b, pat, rep) == rep + ReplaceAll(a[|pat|..] + b, pat, rep)
    ensures ReplaceAll(a, pat, rep) == rep + ReplaceAll(a[|pat|..], pat, rep)
  {
    assert OccursAt(a + b, pat, 0);
    assert a[..|pat|] == pat;
    assert (a + b)[|pat|..] == a[|pat|..] + b;
  }

  /** Without an occurrence at the front, `a` and `a + b` both keep their
      first character and continue after it. */
  lemma SkipAtJunctionFront(a: string, b: string, pat: string, rep: string)
    requires a != [] && |pat| > 0
    requires |pat| <= |a + b| && (a + b)[..|pat|] != pat
    ensures ReplaceAll(a + b, pat, rep) == [a[0]] + ReplaceAll(a[1..] + b, pat, rep)
    ensures ReplaceAll(a, pat, rep) == [a[0]] + ReplaceAll(a[1..], pat, rep)
  {
    assert (a + b)[1..] == a[1..] + b;
    if |a| >= |pat| {
      assert a[..|pat|] == (a + b)[..|pat|];
    } else {
      assert ReplaceAll(a[1..], pat, rep) == a[1..];
      assert [a[0]] + a[1..] == a;
    }
  }

  /** `s[:n]`, including Python's reading of a negative `n` as counting from
      the end. */
  function PyPrefix(s: string, n: int): (r: string)
    ensures |r| <= |s| && r == s[..|r|]
    ensures 0 <= n ==> |r| == if n < |s| then n else |s|
    ensures n < 0 ==> |r| == if |s| + n < 0 then 0 else |s| + n
  {
    if 0 <= n then (if n < |s| then s[..n] else s)
    else (if |s| + n < 0 then [] else s[..|s| + n])
  }
}
