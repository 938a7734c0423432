/**
 * The Python string operations the pipeline relies on, restricted to ASCII:
 * `lower()`, `capitalize()`, `strip()`, `split()` (on whitespace),
 * `split(sep)`, `sep.join(parts)`, `replace(old, new)` and the decimal
 * rendering of a non-negative `int` in an f-string.
 */
module Text {

  datatype Option<T> = None | Some(value: T)

  // ---------------------------------------------------------------------------
  // Characters

  /** Python's `str.isspace()` on ASCII: space, \t \n \v \f \r and the separators \x1c-\x1f. */
  predicate IsSpace(c: char) {
    c as int == 32 || 9 <= c as int <= 13 || 28 <= c as int <= 31
  }

  predicate IsUpper(c: char) { 'A' <= c <= 'Z' }

  predicate IsLower(c: char) { 'a' <= c <= 'z' }

  function LowerChar(c: char): (r: char)
    ensures !IsUpper(r)
    ensures !IsUpper(c) ==> r == c
  {
    if IsUpper(c) then (c as int + 32) as char else c
  }

  function UpperChar(c: char): (r: char)
    ensures !IsLower(r)
    ensures !IsLower(c) ==> r == c
  {
    if IsLower(c) then (c as int - 32) as char else c
  }

  predicate NoUpper(s: string) {
    forall i :: 0 <= i < |s| ==> !IsUpper(s[i])
  }

  predicate NoSpace(s: string) {
    forall i :: 0 <= i < |s| ==> !IsSpace(s[i])
  }

  predicate AllSpace(s: string) {
    forall i :: 0 <= i < |s| ==> IsSpace(s[i])
  }

  // ---------------------------------------------------------------------------
  // lower(), capitalize()

  /** `s.lower()`: every ASCII capital replaced by its small letter, nothing else touched. */
  function Lower(s: string): (r: string)
    ensures |r| == |s| && NoUpper(r)
    ensures forall i :: 0 <= i < |s| ==> r[i] == LowerChar(s[i])
  {
    seq(|s|, i requires 0 <= i < |s| => LowerChar(s[i]))
  }

  lemma LowerOfLowercase(s: string)
    requires NoUpper(s)
    ensures Lower(s) == s
  {
  }

  /** `s.capitalize()`: the first character upper-cased, the rest lower-cased. */
  function Capitalize(s: string): (r: string)
    ensures |r| == |s|
    ensures s != [] ==> !IsLower(r[0]) && NoUpper(r[1..])
  {
    if s == [] then [] else [UpperChar(s[0])] + Lower(s[1..])
  }

  // ---------------------------------------------------------------------------
  // strip()

  function TrimLeft(s: string): (r: string)
    ensures |r| <= |s| && r == s[|s| - |r|..]
    ensures forall i :: 0 <= i < |s| - |r| ==> IsSpace(s[i])
    ensures r == [] || !IsSpace(r[0])
  {
    if s != [] && IsSpace(s[0]) then TrimLeft(s[1..]) else s
  }

  function TrimRight(s: string): (r: string)
    ensures |r| <= |s| && r == s[..|r|]
    ensures forall i :: |r| <= i < |s| ==> IsSpace(s[i])
    ensures r == [] || !IsSpace(r[|r| - 1])
  {
    if s != [] && IsSpace(s[|s| - 1]) then TrimRight(s[..|s| - 1]) else s
  }

  /** No leading and no trailing whitespace. */
  predicate IsStripped(s: string) {
    s == [] || (!IsSpace(s[0]) && !IsSpace(s[|s| - 1]))
  }

  /** Where `s.strip()` starts: the number of leading whitespace characters. */
  function StripStart(s: string): (k: nat)
    ensures k <= |s|
  {
    |s| - |TrimLeft(s)|
  }

  /** `s.strip()`: `s` with its leading and trailing whitespace removed. */
  function Strip(s: string): (r: string)
    ensures IsStripped(r)
  {
    TrimRight(TrimLeft(s))
  }

  /** The result of `strip()` is the slice of `s` starting at `StripStart(s)`. */
  lemma StripSlice(s: string)
    ensures StripStart(s) + |Strip(s)| <= |s|
    ensures Strip(s) == s[StripStart(s)..StripStart(s) + |Strip(s)|]
  {
    var t := TrimLeft(s);
    var r := TrimRight(t);
    var k := |s| - |t|;
    assert t == s[k..] && r == t[..|r|];
    SliceOfSlice(s, k, |r|);
  }

  /** Everything `strip()` removes is whitespace. */
  lemma StripOutside(s: string)
    ensures StripStart(s) + |Strip(s)| <= |s|
    ensures forall i :: 0 <= i < StripStart(s) ==> IsSpace(s[i])
    ensures forall i :: StripStart(s) + |Strip(s)| <= i < |s| ==> IsSpace(s[i])
  {
    var t := TrimLeft(s);
    var r := TrimRight(t);
    var k := |s| - |t|;
    forall i | k + |r| <= i < |s| ensures IsSpace(s[i]) {
      assert s[i] == t[i - k];
    }
  }

  lemma SliceOfSlice(s: string, k: nat, n: nat)
    requires k + n <= |s|
    ensures s[k..][..n] == s[k..k + n] && s[k..][n..] == s[k + n..]
  {
  }

  /** Stripping leaves nothing exactly when the string is all whitespace. */
  lemma StripEmpty(s: string)
    ensures Strip(s) == [] <==> AllSpace(s)
  {
    StripSlice(s);
    StripOutside(s);
    var r, k := Strip(s), StripStart(s);
    if r == [] {
      assert k == |s|;
      assert s[..k] == s;
    } else {
      assert s[k] == r[0];
    }
  }

  /** A string without surrounding whitespace is left unchanged. */
  lemma StripStripped(s: string)
    requires IsStripped(s)
    ensures Strip(s) == s
  {
  }

  lemma StripChars(s: string)
    ensures forall c :: c in Strip(s) ==> c in s
  {
    StripSlice(s);
    var r, k := Strip(s), StripStart(s);
    forall c | c in r ensures c in s {
      var i :| 0 <= i < |r| && r[i] == c;
      assert s[k + i] == c;
    }
  }

  // ---------------------------------------------------------------------------
  // split() on whitespace

  /** Length of the run of non-whitespace characters at the start of `s`. */
  function TokenEnd(s: string): (n: nat)
    ensures n <= |s| && NoSpace(s[..n])
    ensures n < |s| ==> IsSpace(s[n])
  {
    if s == [] || IsSpace(s[0]) then 0 else 1 + TokenEnd(s[1..])
  }

  /**
   * `s.split()`: the maximal runs of non-whitespace characters, in order.
   * Every word is non-empty and free of whitespace.
   */
  function Words(s: string): (ws: seq<string>)
    ensures forall i :: 0 <= i < |ws| ==> ws[i] != [] && NoSpace(ws[i])
    decreases |s|
  {
    if s == [] then []
    else if IsSpace(s[0]) then Words(s[1..])
    else
      var n := TokenEnd(s);
      [s[..n]] + Words(s[n..])
  }

  /** `len(s.split())`. */
  function WordCount(s: string): nat {
    |Words(s)|
  }

  lemma {:induction false} TokenEndBeforeSpace(a: string, b: string)
    requires b != [] && IsSpace(b[0])
    ensures TokenEnd(a + b) == TokenEnd(a)
    decreases |a|
  {
    if a == [] {
      assert a + b == b;
    } else if !IsSpace(a[0]) {
      assert (a + b)[1..] == a[1..] + b;
      TokenEndBeforeSpace(a[1..], b);
    }
  }

  /** Words separated by a single space are the words of the two sides. */
  lemma {:induction false} WordsAroundSpace(a: string, b: string)
    ensures Words(a + " " + b) == Words(a) + Words(b)
    decreases |a|
  {
    var s := a + " " + b;
    if a == [] {
      assert s[1..] == b;
    } else if IsSpace(a[0]) {
      assert s[1..] == a[1..] + " " + b;
      WordsAroundSpace(a[1..], b);
    } else {
      assert s == a + (" " + b);
      TokenEndBeforeSpace(a, " " + b);
      var n := TokenEnd(a);
      assert s[..n] == a[..n];
      assert s[n..] == a[n..] + " " + b;
      WordsAroundSpace(a[n..], b);
    }
  }

  /** A string with a space at `k` has the words of its two sides. */
  lemma WordsAtSpace(s: string, k: nat)
    requires k < |s| && s[k] == ' '
    ensures Words(s) == Words(s[..k]) + Words(s[k + 1..])
  {
    assert s == s[..k] + " " + s[k + 1..];
    WordsAroundSpace(s[..k], s[k + 1..]);
  }

  lemma WordCountPositive(s: string)
    requires s != [] && !IsSpace(s[0])
    ensures WordCount(s) >= 1
  {
  }

  // ---------------------------------------------------------------------------
  // sep.join(parts)

  /** `sep.join(parts)`: the parts with `sep` between neighbours and nowhere else. */
  function Join(parts: seq<string>, sep: string): string {
    if parts == [] then []
    else if |parts| == 1 then parts[0]
    else parts[0] + sep + Join(parts[1..], sep)
  }

  /** Every character of a join comes from a part or from the separator. */
  lemma {:induction false} JoinChars(parts: seq<string>, sep: string, c: char)
    requires c in Join(parts, sep)
    ensures c in sep || exists i :: 0 <= i < |parts| && c in parts[i]
  {
    if |parts| > 1 {
      if c !in parts[0] && c !in sep {
        JoinChars(parts[1..], sep, c);
        var i :| 0 <= i < |parts[1..]| && c in parts[1..][i];
        assert c in parts[i + 1];
      }
    }
  }

  // ---------------------------------------------------------------------------
  // Substring search, split(sep), replace(old, new)

  predicate OccursAt(s: string, pat: string, k: int) {
    0 <= k && k + |pat| <= |s| && s[k..k + |pat|] == pat
  }

  /** `pat in s`. */
  predicate Contains(s: string, pat: string) {
    exists k :: 0 <= k <= |s| - |pat| && OccursAt(s, pat, k)
  }

  lemma OccursAtDrop(s: string, pat: string, d: nat, k: int)
    requires d <= |s| && OccursAt(s[d..], pat, k)
    ensures OccursAt(s, pat, k + d)
  {
    assert s[d..][k..k + |pat|] == s[k + d..k + d + |pat|];
  }

  lemma OccursAtTake(s: string, pat: string, n: nat, k: int)
    requires n <= |s| && OccursAt(s[..n], pat, k)
    ensures OccursAt(s, pat, k)
  {
    assert s[..n][k..k + |pat|] == s[k..k + |pat|];
  }

  /** The leftmost occurrence of `pat` in `s`, as `str.find` reports it. */
  function FirstOccurrence(s: string, pat: string): (r: Option<nat>)
    requires pat != []
    ensures r.Some? ==> OccursAt(s, pat, r.value)
    decreases |s|
  {
    if |s| < |pat| then None
    else if s[..|pat|] == pat then Some(0)
    else
      match FirstOccurrence(s[1..], pat)
      case None => None
      case Some(k) =>
        OccursAtDrop(s, pat, 1, k);
        Some(k + 1)
  }

  /** An occurrence one position in is an occurrence in the tail. */
  lemma OccursAtTail(s: string, pat: string, j: nat)
    requires 0 < j && OccursAt(s, pat, j)
    ensures OccursAt(s[1..], pat, j - 1)
  {
    assert s[1..][j - 1..j - 1 + |pat|] == s[j..j + |pat|];
  }

  /** The occurrence found is the leftmost one, and none is found only when there is none. */
  lemma {:induction false} FirstOccurrenceLeftmost(s: string, pat: string, j: int)
    requires pat != [] && OccursAt(s, pat, j)
    ensures FirstOccurrence(s, pat).Some? && FirstOccurrence(s, pat).value <= j
    decreases |s|
  {
    if s[..|pat|] != pat && j > 0 {
      OccursAtTail(s, pat, j);
      FirstOccurrenceLeftmost(s[1..], pat, j - 1);
    }
  }

  /** `str.find` reports nothing exactly when `pat in s` is false. */
  lemma FirstOccurrenceNone(s: string, pat: string)
    requires pat != []
    ensures FirstOccurrence(s, pat).None? <==> !Contains(s, pat)
  {
    var r := FirstOccurrence(s, pat);
    if r.Some? {
      assert OccursAt(s, pat, r.value);
    }
    if Contains(s, pat) {
      var k :| 0 <= k <= |s| - |pat| && OccursAt(s, pat, k);
      FirstOccurrenceLeftmost(s, pat, k);
    }
  }

  /**
   * `s.split(sep)` for a non-empty separator: the pieces between the
   * occurrences of `sep` found left to right. There is always at least one
   * piece.
   */
  function SplitOn(s: string, sep: string): (parts: seq<string>)
    requires sep != []
    ensures |parts| >= 1
    decreases |s|
  {
    match FirstOccurrence(s, sep)
    case None => [s]
    case Some(k) => [s[..k]] + SplitOn(s[k + |sep|..], sep)
  }

  /** The split has more than one piece exactly when the separator occurs. */
  lemma SplitOnCount(s: string, sep: string)
    requires sep != []
    ensures |SplitOn(s, sep)| >= 2 <==> Contains(s, sep)
  {
    FirstOccurrenceNone(s, sep);
  }

  /** A split with a first occurrence at `k`: the piece before it, then the split of the rest. */
  lemma SplitOnFirst(s: string, sep: string, k: nat)
    requires sep != [] && FirstOccurrence(s, sep) == Some(k)
    ensures k + |sep| <= |s|
    ensures SplitOn(s, sep) == [s[..k]] + SplitOn(s[k + |sep|..], sep)
  {
    assert OccursAt(s, sep, k);
    var t := s[k + |sep|..];
    var rest := SplitOn(t, sep);
    assert SplitOn(s, sep) == [s[..k]] + rest;
  }

  /** No piece of a split contains the separator. */
  lemma {:induction false} SplitOnPieces(s: string, sep: string, i: nat)
    requires sep != [] && i < |SplitOn(s, sep)|
    ensures !Contains(SplitOn(s, sep)[i], sep)
    decreases |s|
  {
    var first := FirstOccurrence(s, sep);
    if first.Some? {
      var k := first.value;
      var t := s[k + |sep|..];
      assert SplitOn(s, sep) == [s[..k]] + SplitOn(t, sep);
      if i == 0 {
        forall j | 0 <= j <= k - |sep| && OccursAt(s[..k], sep, j) ensures false {
          OccursAtTake(s, sep, k, j);
          FirstOccurrenceLeftmost(s, sep, j);
        }
      } else {
        assert SplitOn(s, sep)[i] == SplitOn(t, sep)[i - 1];
        SplitOnPieces(t, sep, i - 1);
      }
    } else {
      FirstOccurrenceNone(s, sep);
    }
  }

  /** Joining the pieces of a split with the separator gives back the string. */
  lemma {:induction false} JoinSplitOn(s: string, sep: string)
    requires sep != []
    ensures Join(SplitOn(s, sep), sep) == s
    decreases |s|
  {
    var first := FirstOccurrence(s, sep);
    if first.Some? {
      var k := first.value;
      var t := s[k + |sep|..];
      var parts := SplitOn(s, sep);
      assert parts == [s[..k]] + SplitOn(t, sep);
      assert parts[1..] == SplitOn(t, sep);
      JoinSplitOn(t, sep);
      assert Join(parts, sep) == s[..k] + sep + t;
      assert s[k..k + |sep|] == sep;
      assert s == s[..k] + s[k..k + |sep|] + t;
    }
  }

  /** Every character of every piece is a character of the split string. */
  lemma {:induction false} SplitOnChars(s: string, sep: string, i: nat, c: char)
    requires sep != [] && i < |SplitOn(s, sep)| && c in SplitOn(s, sep)[i]
    ensures c in s
    decreases |s|
  {
    var first := FirstOccurrence(s, sep);
    if first.Some? {
      var k := first.value;
      var t := s[k + |sep|..];
      SplitOnFirst(s, sep, k);
      if i == 0 {
        assert c in s[..k];
      } else {
        assert SplitOn(s, sep)[i] == SplitOn(t, sep)[i - 1];
        SplitOnChars(t, sep, i - 1, c);
        assert c in t;
      }
    }
  }

  /** The last element of a non-empty sequence (Python's `xs[-1]`). */
  function Last<T>(xs: seq<T>): T
    requires xs != []
  {
    xs[|xs| - 1]
  }

  /** Joining one more part appends the separator and the part. */
  lemma {:induction false} JoinSnoc(parts: seq<string>, y: string, sep: string)
    requires parts != []
    ensures Join(parts + [y], sep) == Join(parts, sep) + sep + y
  {
    if |parts| == 1 {
      assert (parts + [y])[1..] == [y];
    } else {
      assert (parts + [y])[1..] == parts[1..] + [y];
      JoinSnoc(parts[1..], y, sep);
    }
  }

  /**
   * When `sep` occurs, the split string is the earlier pieces joined, one
   * separator, then the last piece.
   */
  lemma SplitOnLastShape(s: string, sep: string)
    requires sep != [] && Contains(s, sep)
    ensures var parts := SplitOn(s, sep);
      |parts| >= 2 && s == Join(parts[..|parts| - 1], sep) + sep + Last(parts)
  {
    SplitOnCount(s, sep);
    JoinSplitOn(s, sep);
    JoinLast(SplitOn(s, sep), sep);
  }

  /** A join of two or more parts ends with the separator and the last part. */
  lemma JoinLast(parts: seq<string>, sep: string)
    requires |parts| >= 2
    ensures Join(parts, sep) == Join(parts[..|parts| - 1], sep) + sep + Last(parts)
  {
    assert parts == parts[..|parts| - 1] + [Last(parts)];
    JoinSnoc(parts[..|parts| - 1], Last(parts), sep);
  }

  /** The last piece of a split is a suffix of the split string. */
  lemma SplitOnLastSuffix(s: string, sep: string)
    requires sep != []
    ensures |Last(SplitOn(s, sep))| <= |s|
    ensures Last(SplitOn(s, sep)) == s[|s| - |Last(SplitOn(s, sep))|..]
  {
    if Contains(s, sep) {
      SplitOnLastShape(s, sep);
    } else {
      FirstOccurrenceNone(s, sep);
    }
  }

  /**
   * When `sep` occurs, the last piece of the split is what follows the last
   * separator found: an occurrence of `sep` ends exactly where it starts.
   */
  lemma SplitOnLastOccurs(s: string, sep: string)
    requires sep != [] && Contains(s, sep)
    ensures |Last(SplitOn(s, sep))| + |sep| <= |s|
    ensures OccursAt(s, sep, |s| - |Last(SplitOn(s, sep))| - |sep|)
  {
    var parts := SplitOn(s, sep);
    SplitOnLastShape(s, sep);
    var p := Join(parts[..|parts| - 1], sep);
    assert s[|p|..|p| + |sep|] == sep;
  }

  /** No occurrence of `pat` starts strictly between `lo` and `hi`. */
  predicate NoOccurrenceBetween(s: string, pat: string, lo: int, hi: int) {
    forall j :: lo < j < hi ==> !OccursAt(s, pat, j)
  }

  /** An occurrence at or after `d` is an occurrence in the suffix from `d`. */
  lemma OccursInSuffix(s: string, sep: string, d: nat, k: nat)
    requires d <= k && OccursAt(s, sep, k)
    ensures OccursAt(s[d..], sep, k - d)
  {
    assert s[d..][k - d..k - d + |sep|] == s[k..k + |sep|];
  }

  /** The last piece of a split follows an occurrence of `sep` and has none of its own. */
  lemma LastSeparator(s: string, sep: string) returns (m: nat)
    requires sep != [] && Contains(s, sep)
    ensures OccursAt(s, sep, m)
    ensures Last(SplitOn(s, sep)) == s[m + |sep|..] && !Contains(s[m + |sep|..], sep)
  {
    var parts := SplitOn(s, sep);
    SplitOnLastOccurs(s, sep);
    SplitOnLastSuffix(s, sep);
    SplitOnPieces(s, sep, |parts| - 1);
    m := |s| - |Last(parts)| - |sep|;
  }

  /**
   * The last piece of a split is what follows an occurrence of `sep` when no
   * other occurrence overlaps it and none follows it.
   */
  lemma LastPieceAfter(s: string, sep: string, k: nat)
    requires sep != [] && OccursAt(s, sep, k)
    requires NoOccurrenceBetween(s, sep, k - |sep|, k) && NoOccurrenceBetween(s, sep, k, k + |sep|)
    requires !Contains(s[k + |sep|..], sep)
    ensures Last(SplitOn(s, sep)) == s[k + |sep|..]
  {
    assert Contains(s, sep);
    var m := LastSeparator(s, sep);
    if m + |sep| <= k {
      OccursInSuffix(s, sep, m + |sep|, k);
    }
    if k + |sep| <= m {
      OccursInSuffix(s, sep, k + |sep|, m);
    }
    assert m == k;
  }

  /** `s.replace(pat, rep)`: Python replaces the occurrences `split` finds. */
  function Replace(s: string, pat: string, rep: string): string
    requires pat != []
  {
    Join(SplitOn(s, pat), rep)
  }

  lemma ReplaceAbsent(s: string, pat: string, rep: string)
    requires pat != [] && !Contains(s, pat)
    ensures Replace(s, pat, rep) == s
  {
    FirstOccurrenceNone(s, pat);
  }

  /** Every character of a replacement comes from the original or from `rep`. */
  lemma ReplaceChars(s: string, pat: string, rep: string, c: char)
    requires pat != [] && c in Replace(s, pat, rep)
    ensures c in s || c in rep
  {
    JoinChars(SplitOn(s, pat), rep, c);
    if c !in rep {
      var i :| 0 <= i < |SplitOn(s, pat)| && c in SplitOn(s, pat)[i];
      SplitOnChars(s, pat, i, c);
    }
  }

  /** Replacing a single character by a string without it removes it entirely. */
  lemma RemoveChar(s: string, c: char, rep: string)
    requires c !in rep
    ensures c !in Replace(s, [c], rep)
  {
    var parts := SplitOn(s, [c]);
    if c in Replace(s, [c], rep) {
      JoinChars(parts, rep, c);
      var i :| 0 <= i < |parts| && c in parts[i];
      var j :| 0 <= j < |parts[i]| && parts[i][j] == c;
      assert OccursAt(parts[i], [c], j);
      SplitOnPieces(s, [c], i);
      assert false;
    }
  }

  /** An occurrence inside a slice is an occurrence in the whole string. */
  lemma ContainsSlice(s: string, i: nat, j: nat, pat: string)
    requires i <= j <= |s| && Contains(s[i..j], pat)
    ensures Contains(s, pat)
  {
    var k :| 0 <= k <= j - i - |pat| && OccursAt(s[i..j], pat, k);
    assert s[..j][i..] == s[i..j];
    OccursAtDrop(s[..j], pat, i, k);
    OccursAtTake(s, pat, j, k + i);
  }

  /** Stripping cannot create an occurrence of a pattern. */
  lemma StripKeepsAbsence(s: string, pat: string)
    requires !Contains(s, pat)
    ensures !Contains(Strip(s), pat)
  {
    StripSlice(s);
    if Contains(Strip(s), pat) {
      ContainsSlice(s, StripStart(s), StripStart(s) + |Strip(s)|, pat);
    }
  }

  /** A one-character pattern occurs exactly where its character does. */
  lemma ContainsChar(s: string, c: char)
    ensures Contains(s, [c]) <==> c in s
  {
    if c in s {
      var k :| 0 <= k < |s| && s[k] == c;
      assert s[k..k + 1] == [c];
      assert OccursAt(s, [c], k);
    }
    if Contains(s, [c]) {
      var k :| 0 <= k <= |s| - 1 && OccursAt(s, [c], k);
      assert s[k] == s[k..k + 1][0];
    }
  }

  /** The first occurrence of a separator character right after a part without it. */
  lemma FirstOccurrenceAfter(a: string, c: char, b: string)
    requires c !in a
    ensures FirstOccurrence(a + [c] + b, [c]) == Some(|a|)
  {
    var s := a + [c] + b;
    assert s[|a|..|a| + 1] == [c];
    FirstOccurrenceLeftmost(s, [c], |a|);
    forall v | 0 <= v < |a| ensures !OccursAt(s, [c], v) {
      assert s[v..v + 1] == [a[v]];
    }
  }

  /** Parts without the separator character split back out of their join. */
  lemma {:induction false} SplitOnJoin(parts: seq<string>, c: char)
    requires parts != [] && forall i :: 0 <= i < |parts| ==> c !in parts[i]
    ensures SplitOn(Join(parts, [c]), [c]) == parts
    decreases |parts|
  {
    var s := Join(parts, [c]);
    if |parts| == 1 {
      ContainsChar(s, c);
      FirstOccurrenceNone(s, [c]);
    } else {
      var rest := Join(parts[1..], [c]);
      assert s == parts[0] + [c] + rest;
      FirstOccurrenceAfter(parts[0], c, rest);
      SplitOnFirst(s, [c], |parts[0]|);
      assert s[..|parts[0]|] == parts[0];
      assert s[|parts[0]| + 1..] == rest;
      SplitOnJoin(parts[1..], c);
    }
  }

  // ---------------------------------------------------------------------------
  // Decimal rendering of a non-negative int (f"{i}")

  predicate IsDigit(c: char) { '0' <= c <= '9' }

  function DigitChar(d: nat): (c: char)
    requires d < 10
    ensures IsDigit(c) && c as int - '0' as int == d
  {
    ('0' as int + d) as char
  }

  /** The decimal digits of `n`, most significant first, without leading zeros. */
  function NatToString(n: nat): (s: string)
    ensures s != [] && forall i :: 0 <= i < |s| ==> IsDigit(s[i])
  {
    if n < 10 then [DigitChar(n)] else NatToString(n / 10) + [DigitChar(n % 10)]
  }

  /** The value of a string of decimal digits. */
  function ParseNat(s: string): nat
    requires forall i :: 0 <= i < |s| ==> IsDigit(s[i])
  {
    if s == [] then 0
    else
      assert IsDigit(s[|s| - 1]);
      10 * ParseNat(s[..|s| - 1]) + (s[|s| - 1] as int - '0' as int)
  }

  lemma {:induction false} ParseNatToString(n: nat)
    ensures ParseNat(NatToString(n)) == n
  {
    var s := NatToString(n);
    if n >= 10 {
      assert s[..|s| - 1] == NatToString(n / 10);
      ParseNatToString(n / 10);
    }
  }

  /** Distinct numbers render as distinct strings. */
  lemma NatToStringInjective(m: nat, n: nat)
    requires NatToString(m) == NatToString(n)
    ensures m == n
  {
    ParseNatToString(m);
    ParseNatToString(n);
  }

  // ---------------------------------------------------------------------------
  // Flattening a sequence of groups

  function Flatten<T>(xss: seq<seq<T>>): seq<T> {
    if xss == [] then [] else xss[0] + Flatten(xss[1..])
  }

  lemma {:induction false} FlattenAppend<T>(xss: seq<seq<T>>, xs: seq<T>)
    ensures Flatten(xss + [xs]) == Flatten(xss) + xs
  {
    if xss != [] {
      assert (xss + [xs])[1..] == xss[1..] + [xs];
      FlattenAppend(xss[1..], xs);
    }
  }
}
