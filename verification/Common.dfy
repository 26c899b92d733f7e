/** Shared vocabulary: optional values, read results, cut slices and sums over maps. */
module Common {

  newtype byte = x: int | 0 <= x < 256

  datatype Option<+T> = None | Some(value: T)

  /**
   The errors a backing store can report. A failed request keeps the transport's error inside, which
   may be io.EOF itself: the server closed the connection without answering.
   */
  datatype Error =
    | EOF                              // io.EOF
    | ErrClosed                        // fs.ErrClosed
    | Cancelled                        // ctx.Err()
    | DownloadFailed(wrapsEOF: bool)   // recorded by the downloader
    | FetchFailed(wrapsEOF: bool)      // a range request that failed, or "chunk fetch failed"
    | IoFailed                         // any other error of the temp file

  /** A failure that errors.Is takes for io.EOF. */
  predicate WrapsEOF(e: Error) {
    (e.DownloadFailed? || e.FetchFailed?) && e.wrapsEOF
  }

  /** What a call of ReadAt leaves in the caller's buffer, and the error beside it. */
  datatype ReadResult = ReadResult(data: seq<byte>, err: Option<Error>)

  function Fail(e: Error): ReadResult {
    ReadResult([], Some(e))
  }

  function Min(a: int, b: int): int {
    if a <= b then a else b
  }

  /** The elements of s at positions lo to hi, cut off at the end of s. */
  function Slice<T>(s: seq<T>, lo: nat, hi: nat): seq<T> {
    if lo <= Min(hi, |s|) then s[lo..Min(hi, |s|)] else []
  }

  /** Everything that can be appended without changing a slice that is already full. */
  lemma SliceOfPrefix<T>(s: seq<T>, n: nat, lo: nat, hi: nat)
    requires n <= |s|
    requires hi <= n || n == |s|
    ensures Slice(s[..n], lo, hi) == Slice(s, lo, hi)
  {
    if hi <= n && lo <= hi {
      assert s[..n][lo..hi] == s[lo..hi];
    } else if n == |s| {
      assert s[..n] == s;
    }
  }

  /** What holds of every prefix of a longer sequence. */
  lemma PrefixesSnoc<T>(p: seq<T> -> bool, h: seq<T>, a: T)
    ensures (forall i :: 0 <= i <= |h| + 1 ==> p((h + [a])[..i])) <==>
            (forall i :: 0 <= i <= |h| ==> p(h[..i])) && p(h + [a])
    ensures (forall i :: 0 <= i <= |h| ==> p(h[..i])) ==> p(h)
  {
    var all := h + [a];
    assert all[..|all|] == all && h[..|h|] == h;
    assert forall i :: 0 <= i <= |h| ==> h[..i] == all[..i];
  }

  /** The sum of the values of m. */
  ghost function Total<K(!new)>(m: map<K, nat>): nat
    decreases |m|
  {
    if m == map[] then 0 else
      var k :| k in m;
      m[k] + Total(m - {k})
  }

  lemma {:induction false} TotalRemove<K(!new)>(m: map<K, nat>, k: K)
    requires k in m
    ensures Total(m) == m[k] + Total(m - {k})
    decreases |m|
  {
    var j :| j in m && Total(m) == m[j] + Total(m - {j});
    if j != k {
      TotalRemove(m - {j}, k);
      TotalRemove(m - {k}, j);
      assert (m - {j}) - {k} == (m - {k}) - {j};
    }
  }

  lemma TotalUpdate<K(!new)>(m: map<K, nat>, k: K, v: nat)
    ensures Total(m[k := v]) + (if k in m then m[k] else 0) == Total(m) + v
  {
    TotalRemove(m[k := v], k);
    assert m[k := v] - {k} == m - {k};
    if k in m {
      TotalRemove(m, k);
    } else {
      assert m - {k} == m;
    }
  }

  lemma MulSuccessor(a: nat, n: nat)
    ensures a * (n + 1) == a * n + a
  {
  }

  lemma {:induction false} TotalBounded<K(!new)>(m: map<K, nat>, bound: nat)
    requires forall k :: k in m ==> m[k] <= bound
    ensures Total(m) <= bound * |m|
    decreases |m|
  {
    if m != map[] {
      var k :| k in m;
      TotalRemove(m, k);
      var rest := m - {k};
      TotalBounded(rest, bound);
      assert rest.Keys == m.Keys - {k};
      MulSuccessor(bound, |rest|);
    }
  }
}
