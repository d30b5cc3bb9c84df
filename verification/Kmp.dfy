/** Knuth-Morris-Pratt search, and the String::Find that uses it. */
module Kmp {

  // The first k elements of s recur as its last k.
  predicate Border<T(==)>(s: seq<T>, k: nat) {
    k < |s| && s[..k] == s[|s| - k..]
  }

  predicate Longest<T(==)>(s: seq<T>, k: nat) {
    Border(s, k) && forall j :: k < j < |s| ==> !Border(s, j)
  }

  predicate OccursAt<T(==)>(text: seq<T>, pattern: seq<T>, i: nat) {
    i + |pattern| <= |text| && text[i..i + |pattern|] == pattern
  }

  // The index a search by trying every start in turn ends at, or -1.
  function NaiveFind<T(==)>(text: seq<T>, pattern: seq<T>, from: nat): (r: int)
    requires from <= |text| + 1
    decreases |text| + 1 - from
    ensures r == -1 || (from <= r && OccursAt(text, pattern, r))
    ensures forall i :: from <= i && (i < r || r == -1) ==> !OccursAt(text, pattern, i)
  {
    if from > |text| then -1
    else if OccursAt(text, pattern, from) then from
    else NaiveFind(text, pattern, from + 1)
  }

  // ---------- borders ----------

  // A border of a border is a border, and every shorter border is one.
  lemma BorderChain<T>(s: seq<T>, k: nat, j: nat)
    requires Border(s, k) && j < k
    ensures Border(s, j) <==> Border(s[..k], j)
  {
    var p := s[..k];
    assert s[|s| - k..][k - j..] == s[|s| - j..];
    assert p[k - j..] == s[|s| - k..][k - j..];
    assert p[..j] == s[..j];
  }

  // Dropping the last element takes a border to the next shorter one, and back when the elements agree.
  lemma BorderStep<T>(s: seq<T>, i: nat, k: nat)
    requires k < i < |s|
    ensures Border(s[..i + 1], k + 1) <==> Border(s[..i], k) && s[k] == s[i]
  {
    var t, p := s[..i + 1], s[..i];
    assert t[..k + 1] == p[..k] + [s[k]];
    assert t[|t| - (k + 1)..] == p[|p| - k..] + [s[i]];
    if Border(t, k + 1) {
      assert t[..k + 1][..k] == p[..k];
      assert (p[|p| - k..] + [s[i]])[..k] == p[|p| - k..];
      assert t[..k + 1][k] == s[k];
      assert (p[|p| - k..] + [s[i]])[k] == s[i];
    }
  }

  // Falling back from a border k of s to its longest border skips no border of s.
  lemma FallbackSkipsNone<T>(s: seq<T>, k: nat, f: nat)
    requires Border(s, k) && k > 0 && Longest(s[..k], f)
    ensures f < k && Border(s, f)
    ensures forall j :: f < j < k ==> !Border(s, j)
  {
    BorderChain(s, k, f);
    forall j | f < j < k
      ensures !Border(s, j)
    {
      BorderChain(s, k, j);
    }
  }

  lemma BorderGrows<T>(p: seq<T>, i: nat, length: nat)
    requires length < i < |p| && Border(p[..i], length) && p[length] == p[i]
    requires forall k :: length < k < i && Border(p[..i], k) ==> p[k] != p[i]
    ensures Longest(p[..i + 1], length + 1)
  {
    var t := p[..i + 1];
    BorderStep(p, i, length);
    forall j | length + 1 < j < |t|
      ensures !Border(t, j)
    {
      BorderStep(p, i, j - 1);
    }
  }

  lemma BorderLost<T>(p: seq<T>, i: nat)
    requires 0 < i < |p| && p[0] != p[i]
    requires forall k :: 0 < k < i && Border(p[..i], k) ==> p[k] != p[i]
    ensures Longest(p[..i + 1], 0)
  {
    var t := p[..i + 1];
    assert t[..0] == t[|t| - 0..];
    forall j | 0 < j < i + 1
      ensures !Border(t, j)
    {
      BorderStep(p, i, j - 1);
    }
  }

  // An occurrence at s agrees with the pattern up to and at every later place it covers.
  lemma OccurrenceAt<T>(t: seq<T>, p: seq<T>, s: nat, i: nat)
    requires s <= i < |t| && i - s < |p|
    ensures OccursAt(t, p, s) ==> p[..i - s] == t[s..i] && p[i - s] == t[i]
  {
    if OccursAt(t, p, s) {
      assert t[s..s + |p|][..i - s] == t[s..i];
      assert t[s..s + |p|][i - s] == t[i];
    }
  }

  lemma NaiveFindIs<T>(t: seq<T>, p: seq<T>, r: nat)
    requires OccursAt(t, p, r) && forall s :: 0 <= s < r ==> !OccursAt(t, p, s)
    ensures NaiveFind(t, p, 0) == r
  {
    var n := NaiveFind(t, p, 0);
    assert n == -1 || n >= r;
  }

  lemma NaiveFindNot<T>(t: seq<T>, p: seq<T>, k: nat)
    requires k <= |t| && |t| - k < |p| && forall s :: 0 <= s < k ==> !OccursAt(t, p, s)
    ensures NaiveFind(t, p, 0) == -1
  {
  }

  // After a mismatch at text[i] with j characters matched, no start before i - f can be an occurrence.
  lemma ShiftSkipsNone<T>(t: seq<T>, p: seq<T>, i: nat, j: nat, f: nat)
    requires 0 < j <= i < |t| && j < |p| && p[..j] == t[i - j..i] && p[j] != t[i]
    requires Longest(p[..j], f)
    ensures f < j && p[..f] == t[i - f..i]
    ensures forall s :: i - j <= s < i - f ==> !OccursAt(t, p, s)
  {
    assert p[..j][..f] == p[..f];
    assert t[i - j..i][j - f..] == t[i - f..i];
    OccurrenceAt(t, p, i - j, i);
    forall s | i - j < s < i - f
      ensures !OccursAt(t, p, s)
    {
      var k := i - s;
      assert !Border(p[..j], k);
      assert t[i - j..i][j - k..] == t[s..i];
      assert p[..j][..k] == p[..k];
      OccurrenceAt(t, p, s, i);
    }
  }

  // ---------- the matcher ----------

  ghost predicate Table<T>(pattern: seq<T>, lps: seq<nat>, n: nat) {
    n <= |pattern| && n <= |lps| && forall i :: 0 <= i < n ==> Longest(pattern[..i + 1], lps[i])
  }

  lemma TableGrows<T>(pattern: seq<T>, lps: seq<nat>, n: nat, k: nat)
    requires Table(pattern, lps, n) && n < |lps| && n < |pattern| && Longest(pattern[..n + 1], k)
    ensures Table(pattern, lps[n := k], n + 1)
  {}

  // What a caller is told: the largest size_t when there is no occurrence, and else the first index of one.
  predicate Tells<T(==)>(text: seq<T>, pattern: seq<T>, r: nat) {
    if r == 0xFFFF_FFFF_FFFF_FFFF then forall i :: 0 <= i <= |text| ==> !OccursAt(text, pattern, i)
    else r < |text| && OccursAt(text, pattern, r) && forall i :: 0 <= i < r ==> !OccursAt(text, pattern, i)
  }

  // On a text whose indices fit into a size_t the answer says whether the pattern occurs, and where first.
  lemma AnswerTells<T>(text: seq<T>, pattern: seq<T>, r: nat)
    requires pattern != [] && |text| <= 0xFFFF_FFFF_FFFF_FFFF
    requires var n := NaiveFind(text, pattern, 0); r == if n == -1 then NPOS else n
    ensures Tells(text, pattern, r)
    ensures r == 0xFFFF_FFFF_FFFF_FFFF <==> forall i :: !OccursAt(text, pattern, i)
  {
    var n := NaiveFind(text, pattern, 0);
    assert n != -1 ==> OccursAt(text, pattern, n) && n < |text|;
    assert forall i: nat :: i > |text| ==> !OccursAt(text, pattern, i);
  }

  // The value static_cast<size_t>(-1), returned when there is no occurrence.
  const NPOS: nat := 0xFFFF_FFFF_FFFF_FFFF

  class Matcher<T(==)> {
    const text: array<T>
    const textSize: nat
    const pattern: array<T>
    const patternSize: nat
    const lps: array<nat>

    ghost predicate Sized() {
      && 0 < patternSize <= pattern.Length && textSize <= text.Length && lps.Length == patternSize
      && lps as object != pattern && lps as object != text
    }

    ghost function P(): (p: seq<T>)
      requires Sized()
      reads pattern
      ensures |p| == patternSize
    {
      pattern[..patternSize]
    }

    ghost predicate Valid()
      reads pattern, lps
    {
      Sized() && Table(P(), lps[..], patternSize)
    }

    constructor (text: array<T>, textSize: nat, pattern: array<T>, patternSize: nat)
      requires 0 < patternSize <= pattern.Length && textSize <= text.Length
      ensures Valid() && fresh(lps)
      ensures this.text == text && this.textSize == textSize && this.pattern == pattern &&
              this.patternSize == patternSize
    {
      this.text, this.textSize, this.pattern, this.patternSize := text, textSize, pattern, patternSize;
      lps := new nat[patternSize];
      new;
      ghost var _ := ComputeLpsArray();
    }

    // Fills the table in at most 2 * patternSize iterations.
    method ComputeLpsArray() returns (ghost steps: nat)
      requires Sized()
      modifies lps
      ensures Valid() && steps <= 2 * patternSize
    {
      ghost var p := P();
      var length: nat := 0;
      var i: nat := 1;
      lps[0] := 0;
      steps := 0;
      while i < patternSize
        invariant 1 <= i <= patternSize && P() == p
        invariant Table(p, lps[..], i)
        invariant Border(p[..i], length)
        invariant forall k :: length < k < i && i < patternSize && Border(p[..i], k) ==> p[k] != p[i]
        invariant steps + 2 <= 2 * i - length
        decreases 2 * patternSize - (2 * i - length)
      {
        steps := steps + 1;
        if pattern[i] == pattern[length] {
          BorderGrows(p, i, length);
          TableGrows(p, lps[..], i, length + 1);
          length := length + 1;
          lps[i] := length;
          i := i + 1;
        } else {
          if length != 0 {
            assert p[..i][..length] == p[..length];
            assert Longest(p[..length], lps[..][length - 1]);
            FallbackSkipsNone(p[..i], length, lps[length - 1]);
            length := lps[length - 1];
          } else {
            BorderLost(p, i);
            TableGrows(p, lps[..], i, 0);
            lps[i] := 0;
            i := i + 1;
          }
        }
      }
    }

    // The first occurrence, as trying every start in turn would find it, in at most 2 * textSize iterations.
    method KmpSearch() returns (r: nat, ghost steps: nat)
      requires Valid()
      ensures var n := NaiveFind(text[..textSize], pattern[..patternSize], 0); r == if n == -1 then NPOS else n
      ensures textSize <= 0xFFFF_FFFF_FFFF_FFFF ==> Tells(text[..textSize], pattern[..patternSize], r)
      ensures steps <= 2 * textSize
    {
      r, steps := Search();
      if textSize <= 0xFFFF_FFFF_FFFF_FFFF {
        AnswerTells(text[..textSize], pattern[..patternSize], r);
      }
    }

    // Its loop.
    method Search() returns (r: nat, ghost steps: nat)
      requires Valid()
      ensures var n := NaiveFind(text[..textSize], pattern[..patternSize], 0); r == if n == -1 then NPOS else n
      ensures steps <= 2 * textSize
    {
      ghost var p, t := P(), text[..textSize];
      var i: nat, j: nat := 0, 0;
      steps := 0;
      while i < textSize
        invariant 0 <= j <= i <= textSize && j < patternSize
        invariant p[..j] == t[i - j..i]
        invariant forall s :: 0 <= s < i - j ==> !OccursAt(t, p, s)
        invariant steps <= 2 * i - j
        decreases 2 * textSize - (2 * i - j)
      {
        steps := steps + 1;
        if pattern[j] == text[i] {
          assert p[..j + 1] == p[..j] + [p[j]] && t[i - j..i + 1] == t[i - j..i] + [t[i]];
          i := i + 1;
          j := j + 1;
        }
        if j == patternSize {
          assert p[..j] == p;
          NaiveFindIs(t, p, i - j);
          return i - j, steps;
        } else if i < textSize && pattern[j] != text[i] {
          if j != 0 {
            ShiftSkipsNone(t, p, i, j, lps[j - 1]);
            j := lps[j - 1];
          } else {
            OccurrenceAt(t, p, i, i);
            i := i + 1;
          }
        }
      }
      NaiveFindNot(t, p, i - j);
      return NPOS, steps;
    }
  }
}
