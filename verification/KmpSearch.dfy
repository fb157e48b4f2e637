/** CD_KmpPatternSearch: the failure table, the search, and the definition both are proved against. */
module KmpSearch {
  import opened Words

  const TABLE_ENTRIES := 256  // 1024 allocated bytes of four-byte entries
  const CD_FALSE := -1

  // ----- what a search means

  predicate OccursAt(src: seq<byte>, pattern: seq<byte>, k: int)
  {
    0 <= k && k + |pattern| <= |src| && src[k..k + |pattern|] == pattern
  }

  /** The least index from k on at which the pattern occurs, found by trying every index; -1 when there is none. */
  function FindFrom(src: seq<byte>, pattern: seq<byte>, k: nat): (r: int)
    ensures r == CD_FALSE || (k <= r && OccursAt(src, pattern, r))
    ensures forall j :: k <= j && OccursAt(src, pattern, j) ==> r != CD_FALSE && r <= j
    decreases |src| - k
  {
    if k + |pattern| > |src| then CD_FALSE
    else if src[k..k + |pattern|] == pattern then k
    else FindFrom(src, pattern, k + 1)
  }

  function Find(src: seq<byte>, pattern: seq<byte>): (r: int)
    ensures r == CD_FALSE <==> forall j :: !OccursAt(src, pattern, j)
    ensures r != CD_FALSE ==> OccursAt(src, pattern, r) && forall j :: 0 <= j < r ==> !OccursAt(src, pattern, j)
  {
    FindFrom(src, pattern, 0)
  }

  lemma FindIsLeast(src: seq<byte>, pattern: seq<byte>, k: int)
    requires OccursAt(src, pattern, k)
    requires forall j :: 0 <= j < k ==> !OccursAt(src, pattern, j)
    ensures Find(src, pattern) == k
  {
  }

  // ----- borders

  /** The first b bytes of p[..n] are also its last b bytes (and not all of it). */
  ghost predicate Border(p: seq<byte>, n: int, b: int)
  {
    0 <= b < n <= |p| && p[..b] == p[n - b..n]
  }

  /** No border of p[..n] is longer than b. */
  ghost predicate Bounded(p: seq<byte>, n: int, b: int)
  {
    forall c :: Border(p, n, c) ==> c <= b
  }

  ghost predicate LongestBorder(p: seq<byte>, n: int, b: int)
  {
    Border(p, n, b) && Bounded(p, n, b)
  }

  lemma BorderOfBorder(p: seq<byte>, n: int, b: int, c: int)
    requires Border(p, n, b) && Border(p, b, c)
    ensures Border(p, n, c)
  {
    assert p[..c] == p[..b][b - c..b] == p[n - b..n][b - c..b] == p[n - c..n];
  }

  lemma ShorterBorder(p: seq<byte>, n: int, b: int, c: int)
    requires Border(p, n, b) && Border(p, n, c) && c < b
    ensures Border(p, b, c)
  {
    assert p[..c] == p[n - c..n] == p[n - b..n][b - c..b] == p[..b][b - c..b] == p[b - c..b];
  }

  /** A border one byte longer is a border extended by a matching byte. */
  lemma BorderSucc(p: seq<byte>, n: int, b: int)
    requires 0 < n < |p| && 0 <= b < n
    ensures Border(p, n + 1, b + 1) <==> Border(p, n, b) && p[b] == p[n]
  {
    assert p[..b + 1] == p[..b] + [p[b]];
    assert p[n - b..n + 1] == p[n - b..n] + [p[n]];
    if Border(p, n + 1, b + 1) {
      assert p[..b] == p[..b + 1][..b] && p[n - b..n] == p[n - b..n + 1][..b];
      assert p[b] == p[..b + 1][b] && p[n] == p[n - b..n + 1][b];
    }
  }

  // ----- the failure table

  ghost predicate TableUpTo(p: seq<byte>, next: seq<int>, i: int)
  {
    i <= |next| && i <= |p| && forall j {:trigger next[j]} :: 0 <= j < i ==> LongestBorder(p, j + 1, next[j])
  }

  lemma BoundedSucc(p: seq<byte>, n: int, b: int)
    requires 0 < n && Bounded(p, n, b) && 0 <= b
    ensures Bounded(p, n + 1, b + 1)
  {
    var n' := n + 1;
    forall c | Border(p, n', c)
      ensures c <= b + 1
    {
      if c > 0 { BorderSucc(p, n, c - 1); }
    }
  }

  lemma FellBack(p: seq<byte>, i: int, m: int, b: int)
    requires 0 < i < |p| && 0 < m && Border(p, i, m) && Bounded(p, i + 1, m + 1) && p[i] != p[m]
    requires LongestBorder(p, m, b)
    ensures Border(p, i, b) && Bounded(p, i + 1, b + 1)
  {
    BorderOfBorder(p, i, m, b);
    var n := i + 1;
    forall c | Border(p, n, c)
      ensures c <= b + 1
    {
      if c > 0 {
        BorderSucc(p, i, c - 1);
        if c - 1 < m { ShorterBorder(p, i, m, c - 1); }
      }
    }
  }

  lemma NoBorder(p: seq<byte>, i: int)
    requires 0 < i < |p| && Bounded(p, i + 1, 1) && p[i] != p[0]
    ensures LongestBorder(p, i + 1, 0)
  {
    BorderSucc(p, i, 0);
  }

  /** Each entry i is the length of the longest proper border of pattern[0..i]; at most 2 * pattern_len - 2
      iterations. */
  method BuildTable(pattern: seq<byte>, next: array<int>) returns (ghost iterations: nat)
    requires 1 <= |pattern| <= TABLE_ENTRIES == next.Length
    modifies next
    ensures TableUpTo(pattern, next[..], |pattern|)
    ensures iterations <= 2 * |pattern| - 2
  {
    var i, matches := 1, 0;
    next[0] := 0;
    iterations := 0;
    while i < |pattern|
      invariant 1 <= i <= |pattern|
      invariant Border(pattern, i, matches)
      invariant Bounded(pattern, i + 1, matches + 1)
      invariant TableUpTo(pattern, next[..], i)
      invariant iterations <= 2 * i - matches - 2
      decreases 2 * |pattern| - (2 * i - matches)
    {
      iterations := iterations + 1;
      if pattern[i] == pattern[matches] {
        BorderSucc(pattern, i, matches);
        BoundedSucc(pattern, i + 1, matches + 1);
        matches := matches + 1;
        next[i] := matches;
        i := i + 1;
      } else if matches > 0 {
        assert LongestBorder(pattern, matches - 1 + 1, next[..][matches - 1]);
        FellBack(pattern, i, matches, next[matches - 1]);
        matches := next[matches - 1];
      } else {
        NoBorder(pattern, i);
        BoundedSucc(pattern, i + 1, 0);
        next[i] := 0;
        i := i + 1;
      }
    }
  }

  // ----- the search

  /** The matched prefix ends at i and nothing occurs before its start. */
  ghost predicate Searching(src: seq<byte>, p: seq<byte>, i: int, m: int)
  {
    0 <= m < |p| && m <= i <= |src| && src[i - m..i] == p[..m] && forall k :: OccursAt(src, p, k) ==> i - m <= k
  }

  lemma Matched(src: seq<byte>, p: seq<byte>, i: int, m: int)
    requires Searching(src, p, i, m) && i < |src| && src[i] == p[m]
    ensures m + 1 < |p| ==> Searching(src, p, i + 1, m + 1)
    ensures m + 1 == |p| ==> OccursAt(src, p, i - m)
  {
    assert src[i - m..i + 1] == src[i - m..i] + [src[i]] == p[..m] + [p[m]] == p[..m + 1];
    if m + 1 == |p| { assert p[..m + 1] == p; }
  }

  lemma OccurrenceReads(src: seq<byte>, p: seq<byte>, k: int, i: int)
    requires OccursAt(src, p, k) && k <= i < k + |p|
    ensures src[i] == p[i - k] && src[k..i] == p[..i - k]
  {
    assert src[i] == src[k..k + |p|][i - k];
    assert src[k..i] == src[k..k + |p|][..i - k];
  }

  lemma OverlapIsBorder(src: seq<byte>, p: seq<byte>, i: int, m: int, c: int)
    requires 0 < c < m <= |p| && m <= i <= |src| && src[i - m..i] == p[..m] && src[i - c..i] == p[..c]
    ensures Border(p, m, c)
  {
    assert p[m - c..m] == p[..m][m - c..m] == src[i - m..i][m - c..m] == src[i - c..i];
  }

  lemma Shifted(src: seq<byte>, p: seq<byte>, i: int, m: int, b: int)
    requires Searching(src, p, i, m) && i < |src| && src[i] != p[m] && 0 < m && LongestBorder(p, m, b)
    ensures Searching(src, p, i, b)
  {
    assert src[i - b..i] == src[i - m..i][m - b..m] == p[..m][m - b..m] == p[m - b..m];
    forall k | OccursAt(src, p, k)
      ensures i - b <= k
    {
      var c := i - k;
      if 0 < c <= m {
        OccurrenceReads(src, p, k, i);
        if c < m { OverlapIsBorder(src, p, i, m, c); }
      }
    }
  }

  lemma Mismatched(src: seq<byte>, p: seq<byte>, i: int)
    requires Searching(src, p, i, 0) && i < |src| && src[i] != p[0]
    ensures Searching(src, p, i + 1, 0)
  {
    forall k | OccursAt(src, p, k)
      ensures i + 1 <= k
    {
      if k == i { OccurrenceReads(src, p, k, i); }
    }
  }

  /** Returns what trying every index would return, after at most 2 * src_len iterations; CD_FALSE too when the table
      cannot be allocated. */
  method KmpPatternSearch(buf: array<byte>, at: nat, srcLen: nat, pattern: seq<byte>, granted: bool)
    returns (lRet: int, ghost iterations: nat)
    requires at + srcLen <= buf.Length
    requires 1 <= |pattern| <= TABLE_ENTRIES
    ensures granted ==> lRet == Find(buf[at..at + srcLen], pattern)
    ensures !granted ==> lRet == CD_FALSE
    ensures iterations <= 2 * srcLen
  {
    lRet := CD_FALSE;
    iterations := 0;
    if granted {
      var kmpNext := new int[TABLE_ENTRIES];
      ghost var _ := BuildTable(pattern, kmpNext);
      ghost var src := buf[at..at + srcLen];
      var i, matches := 0, 0;
      while i < srcLen
        invariant Searching(src, pattern, i, matches)
        invariant TableUpTo(pattern, kmpNext[..], |pattern|)
        invariant src == buf[at..at + srcLen]
        invariant iterations <= 2 * i - matches
        decreases 2 * srcLen - (2 * i - matches)
      {
        iterations := iterations + 1;
        assert src[i] == buf[at + i];
        if buf[at + i] == pattern[matches] {
          Matched(src, pattern, i, matches);
          matches := matches + 1;
          if matches == |pattern| {
            lRet := i + 1 - |pattern|;
            FindIsLeast(src, pattern, lRet);
            return;
          }
          i := i + 1;
        } else if matches > 0 {
          assert LongestBorder(pattern, matches - 1 + 1, kmpNext[..][matches - 1]);
          Shifted(src, pattern, i, matches, kmpNext[matches - 1]);
          matches := kmpNext[matches - 1];
        } else {
          Mismatched(src, pattern, i);
          i := i + 1;
        }
      }
      assert forall k :: !OccursAt(src, pattern, k);
    }
  }
}
