/**
 * The handful of Python `str` operations the modelled code relies on:
 * `in`, `split(sep)[-1]`, `replace(old, '')`, `startswith`, `endswith`,
 * `lower()` and `str(int)`, written over `seq<char>`.
 */
module Text {
  import opened Wrappers

  /** `pat` occurs in `s` starting at index `i`. */
  predicate OccursAt(s: string, pat: string, i: nat) {
    i + |pat| <= |s| && s[i..i + |pat|] == pat
  }

  predicate StartsWith(s: string, prefix: string) {
    |prefix| <= |s| && s[..|prefix|] == prefix
  }

  predicate EndsWith(s: string, suffix: string) {
    |suffix| <= |s| && s[|s| - |suffix|..] == suffix
  }

  lemma OccursAtShift(s: string, pat: string, k: nat)
    requires |s| > 0
    ensures OccursAt(s[1..], pat, k) <==> OccursAt(s, pat, k + 1)
  {
    if k + 1 + |pat| <= |s| {
      assert s[1..][k..k + |pat|] == s[k + 1..k + 1 + |pat|];
    }
  }

  /** Index of the left-most occurrence of `pat` in `s` (Python `s.find(pat)`), None when absent. */
  function FindFirst(s: string, pat: string): (r: Option<nat>)
    ensures r.Some? ==> OccursAt(s, pat, r.value)
    ensures r.Some? ==> forall j :: 0 <= j < r.value ==> !OccursAt(s, pat, j)
    ensures r.None? ==> forall j: nat :: !OccursAt(s, pat, j)
    decreases |s|
  {
    if |s| < |pat| then None
    else if s[..|pat|] == pat then Some(0)
    else
      var rest := FindFirst(s[1..], pat);
      if rest.None? then
        NoneShift(s, pat);
        None
      else
        FirstShift(s, pat, rest.value);
        Some(rest.value + 1)
  }

  /** No occurrence in `s[1..]` and none at 0 means none in `s`. */
  lemma NoneShift(s: string, pat: string)
    requires |pat| <= |s| && s[..|pat|] != pat
    requires forall j: nat :: !OccursAt(s[1..], pat, j)
    ensures forall j: nat :: !OccursAt(s, pat, j)
  {
    forall j: nat ensures !OccursAt(s, pat, j) {
      if j > 0 {
        OccursAtShift(s, pat, j - 1);
      }
    }
  }

  /** The first occurrence in `s[1..]`, with none at 0, is one further on in `s`. */
  lemma FirstShift(s: string, pat: string, k: nat)
    requires |pat| <= |s| && s[..|pat|] != pat
    requires OccursAt(s[1..], pat, k)
    requires forall j :: 0 <= j < k ==> !OccursAt(s[1..], pat, j)
    ensures OccursAt(s, pat, k + 1)
    ensures forall j :: 0 <= j < k + 1 ==> !OccursAt(s, pat, j)
  {
    OccursAtShift(s, pat, k);
    forall j | 0 <= j < k + 1 ensures !OccursAt(s, pat, j) {
      if j > 0 {
        OccursAtShift(s, pat, j - 1);
      }
    }
  }

  /** The three facts FindFirst promises determine it. */
  lemma FindFirstIs(s: string, pat: string, i: nat)
    requires OccursAt(s, pat, i)
    requires forall j :: 0 <= j < i ==> !OccursAt(s, pat, j)
    ensures FindFirst(s, pat) == Some(i)
  {
  }

  /** A one-character pattern occurs exactly where that character is. */
  lemma OccursAtChar(s: string, c: char, k: nat)
    ensures OccursAt(s, [c], k) <==> k < |s| && s[k] == c
  {
    if k < |s| {
      assert s[k..k + 1] == [s[k]];
    }
  }

  /** An occurrence, character by character. */
  lemma OccursAtChars(s: string, pat: string, i: nat)
    requires OccursAt(s, pat, i)
    ensures forall d :: 0 <= d < |pat| ==> s[i + d] == pat[d]
  {
    forall d | 0 <= d < |pat| ensures s[i + d] == pat[d] {
      assert s[i..i + |pat|][d] == s[i + d];
    }
  }

  /** Python `pat in s`. */
  predicate Contains(s: string, pat: string) {
    FindFirst(s, pat).Some?
  }

  lemma OccursAtDrop(s: string, pat: string, m: nat, k: nat)
    requires m <= |s|
    ensures OccursAt(s[m..], pat, k) <==> OccursAt(s, pat, k + m)
  {
    if k + m + |pat| <= |s| {
      assert s[m..][k..k + |pat|] == s[k + m..k + m + |pat|];
    }
  }

  /**
   * The scan `s.split(sep)` makes: from index `i`, with the current piece
   * starting at `start`, every occurrence of `sep` found left to right starts a
   * new piece just past it. The result is where the last piece starts.
   */
  function CutFrom(s: string, sep: string, i: nat, start: nat): (r: nat)
    requires |sep| > 0 && start <= i <= |s|
    requires forall j: nat :: start <= j < i ==> !OccursAt(s, sep, j)
    ensures start <= r <= |s|
    ensures r > start ==> r >= i + |sep| && OccursAt(s, sep, r - |sep|)
    ensures r == start <==> forall j: nat :: i <= j ==> !OccursAt(s, sep, j)
    ensures forall j: nat :: r <= j ==> !OccursAt(s, sep, j)
    decreases |s| - i
  {
    if i + |sep| > |s| then start
    else if OccursAt(s, sep, i) then CutFrom(s, sep, i + |sep|, i + |sep|)
    else CutFrom(s, sep, i + 1, start)
  }

  /** Python `s.split(sep)[-1]`. */
  function LastPiece(s: string, sep: string): string
    requires |sep| > 0
  {
    s[CutFrom(s, sep, 0, 0)..]
  }

  /**
   * The last piece is a suffix holding no separator: all of `s` when `s`
   * holds none, otherwise what follows the last one.
   */
  lemma LastPieceSpec(s: string, sep: string)
    requires |sep| > 0
    ensures var r := LastPiece(s, sep);
      && EndsWith(s, r)
      && (forall j: nat :: !OccursAt(r, sep, j))
      && (!Contains(s, sep) ==> r == s)
      && (Contains(s, sep) ==> |r| + |sep| <= |s| && OccursAt(s, sep, |s| - |r| - |sep|))
  {
    var cut := CutFrom(s, sep, 0, 0);
    var r := s[cut..];
    forall j: nat ensures !OccursAt(r, sep, j) {
      OccursAtDrop(s, sep, cut, j);
    }
    if Contains(s, sep) {
      var f := FindFirst(s, sep).value;
      assert OccursAt(s, sep, f);
      assert cut > 0;
    }
  }

  /** Python `s.replace(pat, '')`: every left-to-right, non-overlapping occurrence removed. */
  function RemoveAll(s: string, pat: string): (r: string)
    requires |pat| > 0
    ensures |r| <= |s|
    ensures forall c :: c in r ==> c in s
    ensures (forall j: nat :: !OccursAt(s, pat, j)) ==> r == s
    decreases |s|
  {
    if |s| < |pat| then s
    else if s[..|pat|] == pat then
      assert OccursAt(s, pat, 0);
      var r := RemoveAll(s[|pat|..], pat);
      assert forall c :: c in r ==> c in s by {
        forall c | c in r ensures c in s {
          assert c in s[|pat|..];
        }
      }
      r
    else
      var rest := RemoveAll(s[1..], pat);
      assert (forall j: nat :: !OccursAt(s, pat, j)) ==> (forall j: nat :: !OccursAt(s[1..], pat, j)) by {
        forall j: nat ensures OccursAt(s[1..], pat, j) ==> OccursAt(s, pat, j + 1) {
          OccursAtShift(s, pat, j);
        }
      }
      assert forall c :: c in rest ==> c in s by {
        forall c | c in rest ensures c in s {
          assert c in s[1..];
        }
      }
      assert s == [s[0]] + s[1..];
      [s[0]] + rest
  }

  /**
   * RemoveAll keeps everything before the left-most occurrence of `pat`,
   * drops that occurrence and goes on after it.
   */
  lemma RemoveAllAtFirst(s: string, pat: string)
    requires |pat| > 0
    ensures FindFirst(s, pat).None? ==> RemoveAll(s, pat) == s
    ensures FindFirst(s, pat).Some? ==> RemovesAt(s, pat, FindFirst(s, pat).value)
  {
    if FindFirst(s, pat).Some? {
      RemoveAllBefore(s, pat, FindFirst(s, pat).value);
    }
  }

  /** Removing `pat` from `s` keeps `s[..i]`, drops the `pat` at `i` and goes on after it. */
  predicate RemovesAt(s: string, pat: string, i: nat) {
    |pat| > 0 && i + |pat| <= |s| && RemoveAll(s, pat) == s[..i] + RemoveAll(s[i + |pat|..], pat)
  }

  /** Removal keeps the text before the first occurrence at `i` and goes on after it. */
  lemma RemoveAllBefore(s: string, pat: string, i: nat)
    requires |pat| > 0
    requires OccursAt(s, pat, i)
    requires forall j :: 0 <= j < i ==> !OccursAt(s, pat, j)
    ensures RemovesAt(s, pat, i)
  {
    RemoveAllBetween(s, pat, 0, i);
    assert s[0..] == s;
    assert s[0..i] == s[..i];
  }

  /** From `k` on, removal keeps `s[k..i]` when the next occurrence is at `i`. */
  lemma {:induction false} RemoveAllBetween(s: string, pat: string, k: nat, i: nat)
    requires |pat| > 0 && k <= i
    requires OccursAt(s, pat, i)
    requires forall j :: k <= j < i ==> !OccursAt(s, pat, j)
    ensures RemoveAll(s[k..], pat) == s[k..i] + RemoveAll(s[i + |pat|..], pat)
    decreases i - k
  {
    var rest := RemoveAll(s[i + |pat|..], pat);
    var t := s[k..];
    if k == i {
      assert t[..|pat|] == s[i..i + |pat|];
      RemoveAllHit(t, pat);
      assert t[|pat|..] == s[i + |pat|..];
      assert s[k..i] + rest == rest;
    } else {
      assert !OccursAt(s, pat, k);
      assert t[..|pat|] == s[k..k + |pat|];
      RemoveAllMiss(t, pat);
      assert t[1..] == s[k + 1..];
      RemoveAllBetween(s, pat, k + 1, i);
      SliceCons(s, k, i);
      AppendAssoc([s[k]], s[k + 1..i], rest);
    }
  }

  /** An occurrence at the front is dropped. */
  lemma RemoveAllHit(t: string, pat: string)
    requires |pat| > 0 && |pat| <= |t| && t[..|pat|] == pat
    ensures RemoveAll(t, pat) == RemoveAll(t[|pat|..], pat)
  {
  }

  /** Without an occurrence at the front, the first character is kept. */
  lemma RemoveAllMiss(t: string, pat: string)
    requires |pat| > 0 && |pat| <= |t| && t[..|pat|] != pat
    ensures RemoveAll(t, pat) == [t[0]] + RemoveAll(t[1..], pat)
  {
  }

  lemma SliceCons<T>(s: seq<T>, k: nat, i: nat)
    requires k < i <= |s|
    ensures s[k..i] == [s[k]] + s[k + 1..i]
  {
  }

  lemma AppendAssoc<T>(a: seq<T>, b: seq<T>, c: seq<T>)
    ensures (a + b) + c == a + (b + c)
  {
  }

  /** Where `pat` does not open `s`, its first character is kept. */
  lemma RemoveAllSkip(s: string, pat: string)
    requires 0 < |pat| <= |s| && s[..|pat|] != pat
    ensures RemoveAll(s, pat) == [s[0]] + RemoveAll(s[1..], pat)
  {
  }

  /** Every occurrence of character `a` replaced by `b` (`re.sub(r"\+", "-", s)` for a single character). */
  function ReplaceChar(s: string, a: char, b: char): (r: string)
    ensures |r| == |s|
    ensures forall k :: 0 <= k < |s| ==> r[k] == (if s[k] == a then b else s[k])
  {
    seq(|s|, k requires 0 <= k < |s| => if s[k] == a then b else s[k])
  }

  function LowerChar(c: char): char {
    if 'A' <= c <= 'Z' then (c as int + 32) as char else c
  }

  /** `s.lower()` restricted to ASCII letters. */
  function ToLower(s: string): (r: string)
    ensures |r| == |s|
  {
    seq(|s|, k requires 0 <= k < |s| => LowerChar(s[k]))
  }

  function DigitChar(d: nat): char
    requires d < 10
  {
    ('0' as int + d) as char
  }

  /** `str(n)` for a non-negative integer: its decimal digits. */
  function NatToString(n: nat): (r: string)
    ensures |r| > 0
    ensures forall k :: 0 <= k < |r| ==> '0' <= r[k] <= '9'
  {
    if n < 10 then [DigitChar(n)] else NatToString(n / 10) + [DigitChar(n % 10)]
  }
}
