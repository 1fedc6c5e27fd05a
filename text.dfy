/** String operations of Python's `str` that the detector relies on:
    `strip()`, `replace(pat, "")`, `split(sep)`, `startswith(p)`, slicing
    with `[:n]` and `str(int)`. Strings are sequences of code points
    other than the surrogates, which Dafny's `char` excludes. */
module Text {

  /** The code points for which Python's `str.isspace()` holds, which are
      exactly the ones `str.strip()` with no argument removes. */
  predicate IsSpace(c: char) {
    var n := c as int;
    (9 <= n <= 13) || (28 <= n <= 32) || n == 0x85 || n == 0xA0 || n == 0x1680
    || (0x2000 <= n <= 0x200A) || n == 0x2028 || n == 0x2029 || n == 0x202F
    || n == 0x205F || n == 0x3000
  }

  /** Neither the first nor the last character is whitespace. */
  predicate NoEdgeSpace(s: string) {
    s == [] || (!IsSpace(s[0]) && !IsSpace(s[|s| - 1]))
  }

  /** `s.strip()`: drop whitespace from the front, then from the back, until
      neither edge is whitespace. */
  function Strip(s: string): (r: string)
    ensures |r| <= |s|
    ensures NoEdgeSpace(r)
    decreases |s|
  {
    if |s| > 0 && IsSpace(s[0]) then Strip(s[1..])
    else if |s| > 0 && IsSpace(s[|s| - 1]) then Strip(s[..|s| - 1])
    else s
  }

  /** `strip()` removes whitespace only: what it returns is the contiguous
      slice `s[i..j]` of its input, and everything it dropped on either side
      is whitespace. */
  lemma {:induction false} StripIsSlice(s: string) returns (i: nat, j: nat)
    ensures i <= j <= |s| && Strip(s) == s[i..j]
    ensures forall k :: 0 <= k < i ==> IsSpace(s[k])
    ensures forall k :: j <= k < |s| ==> IsSpace(s[k])
    decreases |s|
  {
    if |s| > 0 && IsSpace(s[0]) {
      var t := s[1..];
      var i', j' := StripIsSlice(t);
      i, j := i' + 1, j' + 1;
      assert t[i'..j'] == s[i..j] by {
        forall k | 0 <= k < j' - i'
          ensures t[i'..j'][k] == s[i..j][k]
        {
          assert t[i' + k] == s[i + k];
        }
      }
      forall k | 0 < k < i
        ensures IsSpace(s[k])
      {
        assert s[k] == t[k - 1];
      }
      forall k | j <= k < |s|
        ensures IsSpace(s[k])
      {
        assert s[k] == t[k - 1];
      }
    } else if |s| > 0 && IsSpace(s[|s| - 1]) {
      var t := s[..|s| - 1];
      i, j := StripIsSlice(t);
      assert t[i..j] == s[i..j];
      forall k | j <= k < |s| - 1
        ensures IsSpace(s[k])
      {
        assert s[k] == t[k];
      }
    } else {
      i, j := 0, |s|;
    }
  }

  /** A string with no whitespace at either edge is left alone by `strip()`. */
  lemma StripKeeps(s: string)
    requires NoEdgeSpace(s)
    ensures Strip(s) == s
  {
  }

  lemma StripIdempotent(s: string)
    ensures Strip(Strip(s)) == Strip(s)
  {
    StripKeeps(Strip(s));
  }

  /** `s.startswith(p)`: `p` occurs at the very start of `s`. */
  predicate StartsWith(s: string, p: string)
    ensures StartsWith(s, p) <==> OccursAt(s, p, 0)
    ensures StartsWith(s, p) ==> Occurs(s, p)
  {
    |p| <= |s| && s[..|p|] == p
  }

  /** `p` occurs in `s` starting at index `i`. */
  predicate OccursAt(s: string, p: string, i: int) {
    0 <= i <= |s| - |p| && s[i..i + |p|] == p
  }

  /** `p in s` for strings: `p` occurs somewhere in `s` as a contiguous run. */
  predicate Occurs(s: string, p: string) {
    exists i :: 0 <= i <= |s| - |p| && OccursAt(s, p, i)
  }

  /** An occurrence of a string is an occurrence of everything inside it. */
  lemma OccursTransitive(s: string, q: string, p: string)
    requires Occurs(s, q) && Occurs(q, p)
    ensures Occurs(s, p)
  {
    var i :| 0 <= i <= |s| - |q| && OccursAt(s, q, i);
    var j :| 0 <= j <= |q| - |p| && OccursAt(q, p, j);
    assert s[i..i + |q|] == q;
    forall k | 0 <= k < |p|
      ensures s[i + j..i + j + |p|][k] == p[k]
    {
      assert p[k] == q[j..j + |p|][k] == q[j + k];
    }
    assert OccursAt(s, p, i + j);
  }

  /** `s.replace(pat, "")`: Python scans left to right and deletes every
      non-overlapping occurrence of `pat`, the leftmost first; an empty
      pattern leaves the string as it is. */
  function RemoveAll(s: string, pat: string): (r: string)
    ensures |r| <= |s|
    decreases |s|
  {
    if |pat| == 0 || |s| < |pat| then s
    else if s[..|pat|] == pat then RemoveAll(s[|pat|..], pat)
    else [s[0]] + RemoveAll(s[1..], pat)
  }

  lemma {:induction false} RemoveAllAbsent(s: string, pat: string)
    requires !Occurs(s, pat)
    ensures RemoveAll(s, pat) == s
    decreases |s|
  {
    if |pat| == 0 || |s| < |pat| {
    } else {
      assert s[0..0 + |pat|] == s[..|pat|];
      assert !OccursAt(s, pat, 0);
      if Occurs(s[1..], pat) {
        var i :| 0 <= i <= |s| - 1 - |pat| && OccursAt(s[1..], pat, i);
        assert s[i + 1..i + 1 + |pat|] == s[1..][i..i + |pat|];
        assert OccursAt(s, pat, i + 1);
      }
      RemoveAllAbsent(s[1..], pat);
      assert s == [s[0]] + s[1..];
    }
  }

  lemma {:induction false} RemoveAllPresent(s: string, pat: string)
    requires |pat| > 0 && Occurs(s, pat)
    ensures |RemoveAll(s, pat)| <= |s| - |pat|
    decreases |s|
  {
    var i :| 0 <= i <= |s| - |pat| && OccursAt(s, pat, i);
    if s[..|pat|] != pat {
      assert i > 0;
      assert s[1..][i - 1..i - 1 + |pat|] == s[i..i + |pat|];
      assert OccursAt(s[1..], pat, i - 1);
      RemoveAllPresent(s[1..], pat);
    }
  }

  /** Apply `replace(pattern, "")` for each pattern in turn, the first one first. */
  function RemoveEach(s: string, patterns: seq<string>): (r: string)
    ensures |r| <= |s|
    decreases |patterns|
  {
    if patterns == [] then s else RemoveEach(RemoveAll(s, patterns[0]), patterns[1..])
  }

  /** Text in which none of the patterns occurs comes through unchanged. */
  lemma {:induction false} RemoveEachAbsent(s: string, patterns: seq<string>)
    requires forall k :: 0 <= k < |patterns| ==> !Occurs(s, patterns[k])
    ensures RemoveEach(s, patterns) == s
    decreases |patterns|
  {
    if patterns != [] {
      RemoveAllAbsent(s, patterns[0]);
      assert forall k :: 0 <= k < |patterns| - 1 ==> patterns[1..][k] == patterns[k + 1];
      RemoveEachAbsent(s, patterns[1..]);
    }
  }

  /** Deleting a non-empty pattern changes the string exactly when the pattern occurs in it. */
  lemma RemoveAllChanges(s: string, pat: string)
    requires |pat| > 0
    ensures RemoveAll(s, pat) != s <==> Occurs(s, pat)
  {
    if Occurs(s, pat) {
      RemoveAllPresent(s, pat);
    } else {
      RemoveAllAbsent(s, pat);
    }
  }

  /** `s[:n]` for a non-negative `n`. */
  function Take<T>(s: seq<T>, n: nat): (r: seq<T>)
    ensures |r| == if |s| <= n then |s| else n
    ensures r <= s
  {
    if |s| <= n then s else s[..n]
  }

  /** `sep.join(parts)`, the inverse of `Split`. */
  function Join(parts: seq<string>, sep: char): string
    requires |parts| > 0
  {
    if |parts| == 1 then parts[0] else parts[0] + [sep] + Join(parts[1..], sep)
  }

  /** `s.split(sep)` for a one-character separator: the maximal runs between
      separators, including empty ones; never an empty list. */
  function Split(s: string, sep: char): (parts: seq<string>)
    ensures |parts| > 0
    ensures forall k :: 0 <= k < |parts| ==> sep !in parts[k]
    ensures Join(parts, sep) == s
  {
    if |s| == 0 then [""]
    else
      var rest := Split(s[1..], sep);
      if s[0] == sep then [""] + rest
      else
        assert rest == [rest[0]] + rest[1..];
        [[s[0]] + rest[0]] + rest[1..]
  }

  /** Splitting a joined list gives the list back when no part holds the separator. */
  lemma {:induction false} SplitJoin(parts: seq<string>, sep: char)
    requires |parts| > 0
    requires forall k :: 0 <= k < |parts| ==> sep !in parts[k]
    ensures Split(Join(parts, sep), sep) == parts
    decreases |parts|, |parts[0]|
  {
    var p := parts[0];
    if |p| > 0 {
      var tail := [p[1..]] + parts[1..];
      assert Join(parts, sep) == [p[0]] + Join(tail, sep) by {
        if |parts| > 1 {
          assert Join(parts, sep) == p + [sep] + Join(parts[1..], sep);
          assert Join(tail, sep) == p[1..] + [sep] + Join(parts[1..], sep);
        }
      }
      assert sep !in p[1..] by {
        assert forall x :: x in p[1..] ==> x in p;
      }
      SplitJoin(tail, sep);
      var joined := Join(parts, sep);
      assert joined[0] == p[0] && joined[1..] == Join(tail, sep);
      assert tail[1..] == parts[1..];
      assert [p[0]] + p[1..] == p;
    } else if |parts| > 1 {
      assert Join(parts, sep) == [sep] + Join(parts[1..], sep);
      SplitJoin(parts[1..], sep);
      assert parts == [""] + parts[1..];
    }
  }

  /** A string without the separator splits into itself alone. */
  lemma SplitWithoutSeparator(s: string, sep: char)
    requires sep !in s
    ensures Split(s, sep) == [s]
  {
    SplitJoin([s], sep);
  }

  /** The digit character for a single decimal digit. */
  function DigitChar(d: nat): (c: char)
    requires d < 10
    ensures '0' <= c <= '9' && (c as int) - ('0' as int) == d
  {
    (('0' as int) + d) as char
  }

  predicate IsDigit(c: char) {
    '0' <= c <= '9'
  }

  predicate AllDigits(s: string) {
    forall k :: 0 <= k < |s| ==> IsDigit(s[k])
  }

  /** The number a string of decimal digits denotes (reading left to right). */
  function DecimalValue(s: string): nat
    requires AllDigits(s)
  {
    if s == [] then 0
    else 10 * DecimalValue(s[..|s| - 1]) + ((s[|s| - 1] as int) - ('0' as int))
  }

  /** `str(n)` for a natural number: the shortest decimal numeral. */
  function NatToDecimal(n: nat): (r: string)
    ensures |r| > 0 && AllDigits(r)
    ensures r[0] == '0' ==> r == "0"
    ensures DecimalValue(r) == n
  {
    if n < 10 then [DigitChar(n)]
    else
      var prefix := NatToDecimal(n / 10);
      var r := prefix + [DigitChar(n % 10)];
      assert r[..|r| - 1] == prefix;
      r
  }

  /** `str(i)` for any integer: a minus sign before the magnitude when negative. */
  function IntToDecimal(i: int): (r: string)
    ensures |r| > 0 && IsDigit(r[|r| - 1])
    ensures i >= 0 ==> AllDigits(r) && DecimalValue(r) == i
    ensures i < 0 ==> r[0] == '-' && AllDigits(r[1..]) && DecimalValue(r[1..]) == -i
    ensures i >= 0 && r[0] == '0' ==> r == "0"
    ensures i < 0 ==> |r| > 1 && r[1] != '0'
    ensures forall c :: c in r ==> IsDigit(c) || c == '-'
  {
    if i < 0 then
      var r := "-" + NatToDecimal(-i);
      assert r[1..] == NatToDecimal(-i);
      r
    else NatToDecimal(i)
  }
}
