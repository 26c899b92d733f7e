/**
 The abstract state of the two chunk caches and the theory of their eviction orders. The classes
 RangeLRUStore and Fetcher are proved against the functions of this module.
 */
module ChunkCache {
  import opened Common

  datatype Chunk = Chunk(offset: nat, data: seq<byte>, err: Option<Error>)

  /** The cached chunks, and their offsets from the next victim to the newest. */
  datatype Cache = Cache(chunks: map<nat, Chunk>, order: seq<nat>)

  const EmptyCache := Cache(map[], [])

  // ----- sequences of offsets -----

  predicate NoDuplicates(s: seq<nat>) {
    forall i, j :: 0 <= i < j < |s| ==> s[i] != s[j]
  }

  function Elements(s: seq<nat>): set<nat> {
    set x | x in s
  }

  /** s without the first occurrence of x. */
  function Without(s: seq<nat>, x: nat): seq<nat> {
    if s == [] then [] else if s[0] == x then s[1..] else [s[0]] + Without(s[1..], x)
  }

  /** x moved, or added, to the end of s. */
  function Promoted(s: seq<nat>, x: nat): seq<nat> {
    Without(s, x) + [x]
  }

  function LastN(s: seq<nat>, n: nat): seq<nat> {
    if |s| <= n then s else s[|s| - n..]
  }

  lemma {:induction false} WithoutAt(s: seq<nat>, x: nat, i: nat)
    requires i < |s| && s[i] == x && x !in s[..i]
    ensures Without(s, x) == s[..i] + s[i + 1..]
  {
    if i > 0 {
      assert s[1..][..i - 1] == s[..i][1..];
      WithoutAt(s[1..], x, i - 1);
      assert s[..i] == [s[0]] + s[1..][..i - 1];
    }
  }

  lemma {:induction false} WithoutAbsent(s: seq<nat>, x: nat)
    requires x !in s
    ensures Without(s, x) == s
  {
    if s != [] {
      WithoutAbsent(s[1..], x);
    }
  }

  /** The loop of both updateLRU functions: takes the offset out of the order and puts it at the newest end. */
  method MoveToEnd(order: seq<nat>, offset: nat) returns (moved: seq<nat>)
    ensures moved == Promoted(order, offset)
  {
    moved := order;
    var i := 0;
    while i < |order|
      invariant i <= |order| && moved == order && offset !in order[..i]
    {
      if order[i] == offset {
        WithoutAt(order, offset, i);
        moved := order[..i] + order[i + 1..];
        break;
      }
      i := i + 1;
    }
    if i == |order| {
      assert order[..i] == order;
      WithoutAbsent(order, offset);
    }
    moved := moved + [offset];
  }

  lemma WithoutConcat(s: seq<nat>, t: seq<nat>, x: nat)
    ensures Without(s + t, x) == if x in s then Without(s, x) + t else s + Without(t, x)
  {
    if x in s {
      WithoutInFirst(s, t, x);
    } else {
      WithoutInSecond(s, t, x);
    }
  }

  lemma {:induction false} WithoutInFirst(s: seq<nat>, t: seq<nat>, x: nat)
    requires x in s
    ensures Without(s + t, x) == Without(s, x) + t
  {
    assert (s + t)[1..] == s[1..] + t;
    if s[0] != x {
      WithoutInFirst(s[1..], t, x);
      assert [s[0]] + (Without(s[1..], x) + t) == [s[0]] + Without(s[1..], x) + t;
    }
  }

  lemma {:induction false} WithoutInSecond(s: seq<nat>, t: seq<nat>, x: nat)
    requires x !in s
    ensures Without(s + t, x) == s + Without(t, x)
  {
    if s == [] {
      assert s + t == t;
    } else {
      assert (s + t)[1..] == s[1..] + t;
      WithoutInSecond(s[1..], t, x);
      assert [s[0]] + (s[1..] + Without(t, x)) == s + Without(t, x);
    }
  }

  lemma {:induction false} WithoutElements(s: seq<nat>, x: nat)
    requires NoDuplicates(s)
    ensures NoDuplicates(Without(s, x)) && Elements(Without(s, x)) == Elements(s) - {x}
    ensures |Without(s, x)| == if x in s then |s| - 1 else |s|
  {
    if x in s {
      var i :| 0 <= i < |s| && s[i] == x;
      WithoutAt(s, x, i);
    } else {
      WithoutAbsent(s, x);
    }
  }

  lemma PromotedElements(s: seq<nat>, x: nat)
    requires NoDuplicates(s)
    ensures NoDuplicates(Promoted(s, x)) && Elements(Promoted(s, x)) == Elements(s) + {x}
    ensures |Promoted(s, x)| == if x in s then |s| else |s| + 1
  {
    WithoutElements(s, x);
    assert x !in Elements(Without(s, x));
    ElementsAppend(Without(s, x), x);
  }

  lemma ElementsAppend(s: seq<nat>, x: nat)
    ensures Elements(s + [x]) == Elements(s) + {x}
  {
    assert (s + [x])[|s|] == x;
    forall y | y in s ensures y in s + [x] {
    }
  }

  lemma {:induction false} ElementsCount(s: seq<nat>)
    requires NoDuplicates(s)
    ensures |Elements(s)| == |s|
  {
    if s != [] {
      ElementsCount(s[1..]);
      assert Elements(s) == {s[0]} + Elements(s[1..]);
    }
  }

  // ----- operations -----

  function Restricted(chunks: map<nat, Chunk>, offsets: seq<nat>): map<nat, Chunk> {
    map o | o in chunks && o in offsets :: chunks[o]
  }

  /** Keeps the newest n chunks. */
  function EvictTo(c: Cache, n: nat): Cache {
    var kept := LastN(c.order, n);
    Cache(Restricted(c.chunks, kept), kept)
  }

  function Insert(c: Cache, capacity: nat, off: nat, chunk: Chunk): Cache {
    EvictTo(Cache(c.chunks[off := chunk], Promoted(c.order, off)), capacity)
  }

  /** RangeLRUStore.getChunk without competition: a hit leaves the order alone. */
  function RangeGet(c: Cache, capacity: nat, off: nat, fetched: Chunk): Cache {
    if off in c.chunks then c else Insert(c, capacity, off, fetched)
  }

  /** Fetcher.getChunk without competition: a hit moves the chunk to the newest end. */
  function FetcherGet(c: Cache, capacity: nat, off: nat, fetched: Chunk): Cache {
    if off in c.chunks then c.(order := Promoted(c.order, off)) else Insert(c, capacity, off, fetched)
  }

  /** lruOrder holds each cached offset once and nothing else, within the capacity. */
  ghost predicate WellFormed(c: Cache, capacity: nat) {
    NoDuplicates(c.order) && c.chunks.Keys == Elements(c.order) && |c.order| <= capacity
  }

  lemma EvictWellFormed(c: Cache, n: nat)
    requires NoDuplicates(c.order) && c.chunks.Keys == Elements(c.order)
    ensures WellFormed(EvictTo(c, n), n)
  {
    var kept := LastN(c.order, n);
    assert forall o :: o in kept ==> o in Elements(c.order);
    assert forall i :: 0 <= i < |kept| ==> kept[i] == c.order[i + |c.order| - |kept|];
  }

  lemma InsertWellFormed(c: Cache, capacity: nat, off: nat, chunk: Chunk)
    requires WellFormed(c, capacity) && capacity > 0
    ensures WellFormed(Insert(c, capacity, off, chunk), capacity)
    ensures off in Insert(c, capacity, off, chunk).chunks && Insert(c, capacity, off, chunk).chunks[off] == chunk
    ensures var order := Insert(c, capacity, off, chunk).order; |order| > 0 && order[|order| - 1] == off
  {
    PromotedElements(c.order, off);
    EvictWellFormed(Cache(c.chunks[off := chunk], Promoted(c.order, off)), capacity);
    var kept := LastN(Promoted(c.order, off), capacity);
    assert kept[|kept| - 1] == off;
  }

  lemma EvictNothing(c: Cache)
    requires c.chunks.Keys == Elements(c.order)
    ensures EvictTo(c, |c.order|) == c
  {
    assert forall o :: o in c.chunks <==> o in c.order;
  }

  /** Evicting one more removes the oldest chunk that was kept. */
  lemma DropOldest(c: Cache, n: nat)
    requires NoDuplicates(c.order) && 0 < n <= |c.order|
    ensures var kept := EvictTo(c, n);
            EvictTo(c, n - 1) == Cache(kept.chunks - {kept.order[0]}, kept.order[1..])
  {
    var kept := LastN(c.order, n);
    assert LastN(c.order, n - 1) == kept[1..];
    assert forall i :: 0 <= i < |kept| ==> kept[i] == c.order[|c.order| - n + i];
    RestrictedTail(c.chunks, kept);
  }

  /** n evictions, one at a time. */
  ghost function Dropped(c: Cache, n: nat): (d: Cache)
    requires n <= |c.order|
    ensures |d.order| == |c.order| - n
  {
    if n == 0 then c
    else
      WithoutOldest(Dropped(c, n - 1))
  }

  ghost function WithoutOldest(c: Cache): Cache
    requires c.order != []
  {
    Cache(c.chunks - {c.order[0]}, c.order[1..])
  }

  lemma {:induction false} DroppedIsEvicted(c: Cache, n: nat, left: nat)
    requires NoDuplicates(c.order) && c.chunks.Keys == Elements(c.order) && n + left == |c.order|
    ensures Dropped(c, n) == EvictTo(c, left)
  {
    if n == 0 {
      EvictNothing(c);
    } else {
      var d := Dropped(c, n - 1);
      DroppedIsEvicted(c, n - 1, left + 1);
      DropStep(c, d, left);
      assert Dropped(c, n) == WithoutOldest(d);
    }
  }

  lemma DropStep(c: Cache, d: Cache, n: nat)
    requires NoDuplicates(c.order) && n < |c.order| && d == EvictTo(c, n + 1)
    ensures d.order != [] && WithoutOldest(d) == EvictTo(c, n)
  {
    DropOldest(c, n + 1);
  }

  lemma DroppedCount(c: Cache, n: nat)
    requires NoDuplicates(c.order) && c.chunks.Keys == Elements(c.order) && n <= |c.order|
    ensures |Dropped(c, n).chunks| == |Dropped(c, n).order|
  {
    DroppedIsEvicted(c, n, |c.order| - n);
    KeysCount(c, |c.order| - n);
  }

  /** Evicting while there are more than capacity entries keeps the newest capacity ones. */
  lemma EvictedEnough(c: Cache, n: nat, capacity: nat)
    requires NoDuplicates(c.order) && c.chunks.Keys == Elements(c.order) && n <= |c.order|
    requires |c.order| - n <= capacity && (n > 0 ==> |c.order| - n == capacity)
    ensures Dropped(c, n) == EvictTo(c, capacity)
  {
    DroppedIsEvicted(c, n, |c.order| - n);
    if n == 0 {
      assert LastN(c.order, capacity) == LastN(c.order, |c.order|);
    }
  }

  lemma KeysCount(c: Cache, n: nat)
    requires NoDuplicates(c.order) && c.chunks.Keys == Elements(c.order)
    ensures |EvictTo(c, n).chunks| == |EvictTo(c, n).order|
  {
    EvictWellFormed(c, n);
    ElementsCount(EvictTo(c, n).order);
    assert |EvictTo(c, n).chunks| == |EvictTo(c, n).chunks.Keys|;
  }

  lemma FetcherRunSnoc(c: Cache, capacity: nat, h: seq<Access>, a: Access)
    ensures FetcherRun(c, capacity, h + [a]) == FetcherGet(FetcherRun(c, capacity, h), capacity, a.off, a.fetched)
  {
    assert (h + [a])[..|h|] == h;
  }

  lemma RestrictedTail(chunks: map<nat, Chunk>, s: seq<nat>)
    requires NoDuplicates(s) && s != []
    ensures Restricted(chunks, s[1..]) == Restricted(chunks, s) - {s[0]}
  {
    TailMembers(s);
  }

  lemma TailMembers(s: seq<nat>)
    requires NoDuplicates(s) && s != []
    ensures forall x :: x in s[1..] <==> x in s && x != s[0]
  {
    assert s == [s[0]] + s[1..];
  }

  lemma PromoteWellFormed(c: Cache, capacity: nat, off: nat)
    requires WellFormed(c, capacity) && off in c.chunks
    ensures WellFormed(c.(order := Promoted(c.order, off)), capacity)
  {
    PromotedElements(c.order, off);
    assert off in Elements(c.order);
  }

  // ----- runs of gets -----

  /** One get: the offset asked for, and what the network would have answered had it been asked. */
  datatype Access = Access(off: nat, fetched: Chunk)

  function FetcherRun(c: Cache, capacity: nat, h: seq<Access>): Cache {
    if h == [] then c
    else
      var a := h[|h| - 1];
      FetcherGet(FetcherRun(c, capacity, h[..|h| - 1]), capacity, a.off, a.fetched)
  }

  function RangeRun(c: Cache, capacity: nat, h: seq<Access>): Cache {
    if h == [] then c
    else
      var a := h[|h| - 1];
      RangeGet(RangeRun(c, capacity, h[..|h| - 1]), capacity, a.off, a.fetched)
  }

  lemma {:induction false} FetcherRunWellFormed(c: Cache, capacity: nat, h: seq<Access>)
    requires WellFormed(c, capacity) && capacity > 0
    ensures WellFormed(FetcherRun(c, capacity, h), capacity)
  {
    if h != [] {
      var mid, a := FetcherRun(c, capacity, h[..|h| - 1]), h[|h| - 1];
      FetcherRunWellFormed(c, capacity, h[..|h| - 1]);
      if a.off in mid.chunks {
        PromoteWellFormed(mid, capacity, a.off);
      } else {
        InsertWellFormed(mid, capacity, a.off, a.fetched);
      }
    }
  }

  lemma {:induction false} RangeRunWellFormed(c: Cache, capacity: nat, h: seq<Access>)
    requires WellFormed(c, capacity) && capacity > 0
    ensures WellFormed(RangeRun(c, capacity, h), capacity)
  {
    if h != [] {
      var mid, a := RangeRun(c, capacity, h[..|h| - 1]), h[|h| - 1];
      RangeRunWellFormed(c, capacity, h[..|h| - 1]);
      InsertWellFormed(mid, capacity, a.off, a.fetched);
    }
  }

  // ----- Fetcher: exactly least recently used -----

  /** Every offset ever asked for, ordered by its last use: an LRU list without a bound. */
  function Recency(h: seq<Access>): seq<nat> {
    if h == [] then [] else Promoted(Recency(h[..|h| - 1]), h[|h| - 1].off)
  }

  ghost predicate Used(h: seq<Access>, x: nat) {
    exists i :: 0 <= i < |h| && h[i].off == x
  }

  lemma {:induction false} RecencyElements(h: seq<Access>)
    ensures NoDuplicates(Recency(h))
    ensures forall x :: x in Recency(h) <==> Used(h, x)
  {
    if h != [] {
      var init, a := h[..|h| - 1], h[|h| - 1];
      RecencyElements(init);
      PromotedElements(Recency(init), a.off);
      forall x ensures x in Recency(h) <==> Used(h, x) {
        assert x in Recency(h) <==> x in Elements(Recency(h));
        assert x in Recency(init) <==> x in Elements(Recency(init));
        if x in Recency(init) {
          var i :| 0 <= i < |init| && init[i].off == x;
          assert h[i].off == x;
        }
        if i :| 0 <= i < |h| && h[i].off == x && x != a.off {
          assert init[i].off == x;
        }
      }
    }
  }

  lemma LastNOfConcat(a: seq<nat>, t: seq<nat>, n: nat)
    requires a == [] || |t| >= n
    ensures LastN(a + t, n) == LastN(t, n)
  {
    if a == [] {
      assert a + t == t;
    }
  }

  /** Promoting inside the newest n, or adding at their end, commutes with cutting to n. */
  lemma PromoteLastN(r: seq<nat>, n: nat, x: nat)
    requires NoDuplicates(r) && n > 0
    ensures LastN(Promoted(r, x), n) == LastN(Promoted(LastN(r, n), x), n)
    ensures x in LastN(r, n) ==> LastN(Promoted(r, x), n) == Promoted(LastN(r, n), x)
  {
    var s := LastN(r, n);
    var a := r[..|r| - |s|];
    assert r == a + s;
    WithoutConcat(a, s, x);
    if x in a {
      NotInBoth(a, s, x);
      PromoteOld(a, s, n, x);
    } else {
      WithoutAbsent(a, x);
      assert Promoted(r, x) == a + Promoted(s, x);
      PromotedLength(s, x);
      LastNOfConcat(a, Promoted(s, x), n);
    }
  }

  lemma PromoteOld(a: seq<nat>, s: seq<nat>, n: nat, x: nat)
    requires x in a && x !in s && |s| == n
    ensures LastN(Without(a, x) + s + [x], n) == LastN(Promoted(s, x), n)
  {
    WithoutAbsent(s, x);
    assert Without(a, x) + s + [x] == Without(a, x) + (s + [x]);
    LastNOfConcat(Without(a, x), s + [x], n);
  }

  lemma NotInBoth(a: seq<nat>, s: seq<nat>, x: nat)
    requires NoDuplicates(a + s) && x in a
    ensures x !in s
  {
    var i :| 0 <= i < |a| && a[i] == x;
    forall j | 0 <= j < |s| ensures s[j] != x {
      assert (a + s)[i] == x && (a + s)[|a| + j] == s[j];
    }
  }

  lemma {:induction false} PromotedLength(s: seq<nat>, x: nat)
    ensures |Promoted(s, x)| == if x in s then |s| else |s| + 1
  {
    if s != [] {
      PromotedLength(s[1..], x);
    }
  }

  /**
   Exact LRU: after any sequence of gets the Fetcher holds exactly the newest capacity offsets of
   the unbounded recency list, in that order.
   */
  lemma {:induction false} FetcherIsLRU(capacity: nat, h: seq<Access>)
    requires capacity > 0
    ensures FetcherRun(EmptyCache, capacity, h).order == LastN(Recency(h), capacity)
  {
    if h != [] {
      var init, a := h[..|h| - 1], h[|h| - 1];
      FetcherIsLRU(capacity, init);
      FetcherRunWellFormed(EmptyCache, capacity, init);
      RecencyElements(init);
      PromoteLastN(Recency(init), capacity, a.off);
      var mid := FetcherRun(EmptyCache, capacity, init);
      assert a.off in mid.chunks <==> a.off in Elements(mid.order);
    }
  }

  /** The position of the last access to x. */
  function LastUse(h: seq<Access>, x: nat): nat
    requires Used(h, x)
    ensures LastUse(h, x) < |h| && h[LastUse(h, x)].off == x
    ensures forall i :: LastUse(h, x) < i < |h| ==> h[i].off != x
  {
    if h[|h| - 1].off == x then |h| - 1
    else
      assert Used(h[..|h| - 1], x) by {
        var i :| 0 <= i < |h| && h[i].off == x;
        assert h[..|h| - 1][i].off == x;
      }
      LastUse(h[..|h| - 1], x)
  }

  /** The distinct offsets asked for from position i on. */
  function UsedSince(h: seq<Access>, i: nat): set<nat> {
    set k | i <= k < |h| :: h[k].off
  }

  /** The offsets behind x in the recency list are exactly those used after x's last use. */
  lemma {:induction false} RecencyIsLastUse(h: seq<Access>, k: nat)
    requires k < |Recency(h)|
    ensures Used(h, Recency(h)[k])
    ensures Elements(Recency(h)[k + 1..]) == UsedSince(h, LastUse(h, Recency(h)[k]) + 1)
  {
    var init, a := h[..|h| - 1], h[|h| - 1];
    var r, before := Recency(h), Recency(init);
    RecencyElements(h);
    RecencyElements(init);
    assert r[k] in r;
    if k == |r| - 1 {
      assert r[k] == a.off;
    } else {
      var rest := Without(before, a.off);
      WithoutElements(before, a.off);
      assert rest[k] == r[k];
      assert r[k] in Elements(rest);
      var j :| 0 <= j < |before| && before[j] == r[k];
      RecencyIsLastUse(init, j);
      assert h == init + [a];
      RecencyShifts(init, a, k, j);
    }
  }

  lemma RecencyShifts(init: seq<Access>, a: Access, k: nat, j: nat)
    requires NoDuplicates(Recency(init)) && j < |Recency(init)|
    requires k < |Without(Recency(init), a.off)| && Without(Recency(init), a.off)[k] == Recency(init)[j]
    requires Used(init, Recency(init)[j])
    requires Elements(Recency(init)[j + 1..]) == UsedSince(init, LastUse(init, Recency(init)[j]) + 1)
    ensures var x := Recency(init)[j];
            && Used(init + [a], x)
            && Elements(Promoted(Recency(init), a.off)[k + 1..]) == UsedSince(init + [a], LastUse(init + [a], x) + 1)
  {
    var rest := Without(Recency(init), a.off);
    WithoutElements(Recency(init), a.off);
    assert rest[k] in Elements(rest);
    RestAfter(Recency(init), a.off, k, j);
    assert Promoted(Recency(init), a.off)[k + 1..] == rest[k + 1..] + [a.off];
    ElementsAppend(rest[k + 1..], a.off);
    SinceExtends(init, a, rest[k]);
  }

  lemma SinceExtends(init: seq<Access>, a: Access, x: nat)
    requires Used(init, x)
    requires x != a.off
    ensures Used(init + [a], x)
    ensures UsedSince(init + [a], LastUse(init + [a], x) + 1) == UsedSince(init, LastUse(init, x) + 1) + {a.off}
  {
    var h := init + [a];
    var i :| 0 <= i < |init| && init[i].off == x;
    assert h[i].off == x;
    assert h[..|h| - 1] == init;
    var m := LastUse(init, x) + 1;
    forall y ensures y in UsedSince(h, m) <==> y in UsedSince(init, m) + {a.off} {
      if y in UsedSince(init, m) {
        var k :| m <= k < |init| && init[k].off == y;
        assert h[k].off == y;
      }
      assert h[|h| - 1].off == a.off;
    }
  }

  lemma RestAfter(before: seq<nat>, y: nat, k: nat, j: nat)
    requires NoDuplicates(before) && k < |Without(before, y)| && j < |before|
    requires Without(before, y)[k] == before[j]
    ensures Elements(Without(before, y)[k + 1..]) + {y} == Elements(before[j + 1..]) + {y}
  {
    if y in before {
      var i :| 0 <= i < |before| && before[i] == y;
      WithoutAt(before, y, i);
      if k < i {
        assert j == k;
        RestBefore(before, y, i, k);
      } else {
        assert before[k + 1] == before[j];
        assert Without(before, y)[k + 1..] == before[j + 1..];
      }
    } else {
      WithoutAbsent(before, y);
      assert j == k;
    }
  }

  lemma RestBefore(before: seq<nat>, y: nat, i: nat, k: nat)
    requires k < i < |before| && before[i] == y
    ensures Elements((before[..i] + before[i + 1..])[k + 1..]) + {y} == Elements(before[k + 1..]) + {y}
  {
    var l, r := before[k + 1..i], before[i + 1..];
    assert (before[..i] + before[i + 1..])[k + 1..] == l + r;
    assert before[k + 1..] == l + [y] + r;
    forall x ensures x in l + r || x == y <==> x in l + [y] + r {
    }
  }

  /**
   The stack-distance form of LRU, without any list: a chunk is resident exactly when it was asked
   for and fewer than capacity distinct offsets were asked for since.
   */
  lemma FetcherResidents(capacity: nat, h: seq<Access>, x: nat)
    requires capacity > 0
    requires Used(h, x)
    ensures x in FetcherRun(EmptyCache, capacity, h).chunks
            <==> |UsedSince(h, LastUse(h, x) + 1)| < capacity
  {
    RecencyElements(h);
    assert x in Recency(h);
    var k :| 0 <= k < |Recency(h)| && Recency(h)[k] == x;
    RecencyIsLastUse(h, k);
    ElementsCount(Recency(h)[k + 1..]);
    ResidentIffNear(capacity, h, k);
  }

  lemma ResidentIffNear(capacity: nat, h: seq<Access>, k: nat)
    requires capacity > 0 && k < |Recency(h)|
    ensures Recency(h)[k] in FetcherRun(EmptyCache, capacity, h).chunks <==> |Recency(h)| - k <= capacity
  {
    FetcherIsLRU(capacity, h);
    FetcherRunWellFormed(EmptyCache, capacity, h);
    RecencyElements(h);
    InLastN(Recency(h), capacity, k);
    var c := FetcherRun(EmptyCache, capacity, h);
    assert Recency(h)[k] in c.chunks <==> Recency(h)[k] in Elements(c.order);
  }

  lemma InLastN(r: seq<nat>, n: nat, k: nat)
    requires NoDuplicates(r) && k < |r|
    ensures r[k] in LastN(r, n) <==> |r| - k <= n
  {
    var kept := LastN(r, n);
    if |r| - k <= n {
      assert kept[k - (|r| - |kept|)] == r[k];
    } else {
      forall i | 0 <= i < |kept| ensures kept[i] != r[k] {
        assert kept[i] == r[i + |r| - |kept|];
      }
    }
  }

  /** Nothing that was never asked for is resident. */
  lemma FetcherHoldsOnlyUsed(capacity: nat, h: seq<Access>, x: nat)
    requires capacity > 0 && x in FetcherRun(EmptyCache, capacity, h).chunks
    ensures Used(h, x)
  {
    FetcherIsLRU(capacity, h);
    FetcherRunWellFormed(EmptyCache, capacity, h);
    RecencyElements(h);
    var c := FetcherRun(EmptyCache, capacity, h);
    assert x in Elements(c.order);
    assert x in Recency(h);
  }

  lemma FetcherRunConcat(c: Cache, capacity: nat, g: seq<Access>, h: seq<Access>)
    ensures FetcherRun(c, capacity, g + h) == FetcherRun(FetcherRun(c, capacity, g), capacity, h)
  {
    if h == [] {
      assert g + h == g;
    } else {
      var init := h[..|h| - 1];
      assert (g + h)[..|g + h| - 1] == g + init;
      FetcherRunConcat(c, capacity, g, init);
    }
  }

  /** What was fetched is what is held, for as long as the offset has been resident at every get. */
  lemma {:induction false} FetcherKeepsValue(c: Cache, capacity: nat, off: nat, h: seq<Access>)
    requires off in c.chunks && Kept(c, capacity, off, h)
    ensures off in FetcherRun(c, capacity, h).chunks && FetcherRun(c, capacity, h).chunks[off] == c.chunks[off]
  {
    if h != [] {
      var init := h[..|h| - 1];
      assert h[..|init|] == init;
      assert forall i :: 0 <= i <= |init| ==> init[..i] == h[..i];
      FetcherKeepsValue(c, capacity, off, init);
      assert h[..|h|] == h;
    }
  }

  /** Fewer than capacity distinct offsets were asked for since the last use of off. */
  ghost predicate RecentlyUsed(capacity: nat, h: seq<Access>, off: nat) {
    Used(h, off) && |UsedSince(h, LastUse(h, off) + 1)| < capacity
  }

  lemma UsedConcat(g: seq<Access>, h: seq<Access>, off: nat)
    requires Used(g, off)
    ensures Used(g + h, off)
  {
    var i :| 0 <= i < |g| && g[i].off == off;
    assert (g + h)[i].off == off;
  }

  lemma FetcherResidentsRecent(capacity: nat, h: seq<Access>, off: nat)
    requires capacity > 0 && Used(h, off)
    ensures off in FetcherRun(EmptyCache, capacity, h).chunks <==> RecentlyUsed(capacity, h, off)
  {
    FetcherResidents(capacity, h, off);
  }

  lemma ResidentIffRecent(capacity: nat, g: seq<Access>, off: nat, h: seq<Access>)
    requires capacity > 0 && Used(g, off)
    ensures off in FetcherRun(FetcherRun(EmptyCache, capacity, g), capacity, h).chunks
            <==> RecentlyUsed(capacity, g + h, off)
  {
    UsedConcat(g, h, off);
    FetcherResidentsRecent(capacity, g + h, off);
    FetcherRunConcat(EmptyCache, capacity, g, h);
  }

  /** The chunk has been resident after every get of h. */
  ghost predicate Kept(c: Cache, capacity: nat, off: nat, h: seq<Access>) {
    forall i :: 0 <= i <= |h| ==> off in FetcherRun(c, capacity, h[..i]).chunks
  }

  ghost predicate AlwaysRecent(capacity: nat, g: seq<Access>, off: nat, h: seq<Access>) {
    forall i :: 0 <= i <= |h| ==> RecentlyUsed(capacity, g + h[..i], off)
  }

  /**
   A chunk that a Fetcher fetched, also one that holds an error, is kept all along if and only if it is
   always recently used; then every get of its offset returns what was fetched. So an error that keeps
   being asked for is never fetched again.
   */
  lemma FetcherKeepsErrors(capacity: nat, g: seq<Access>, a: Access, h: seq<Access>)
    requires capacity > 0 && a.off !in FetcherRun(EmptyCache, capacity, g).chunks
    ensures var start := FetcherRun(EmptyCache, capacity, g + [a]);
            && (Kept(start, capacity, a.off, h) <==> AlwaysRecent(capacity, g + [a], a.off, h))
            && (Kept(start, capacity, a.off, h) ==>
                  a.off in FetcherRun(start, capacity, h).chunks
                  && FetcherRun(start, capacity, h).chunks[a.off] == a.fetched)
  {
    var start := FetcherRun(EmptyCache, capacity, g + [a]);
    assert (g + [a])[|g|] == a;
    forall i | 0 <= i <= |h|
      ensures a.off in FetcherRun(start, capacity, h[..i]).chunks <==> RecentlyUsed(capacity, g + [a] + h[..i], a.off)
    {
      ResidentIffRecent(capacity, g + [a], a.off, h[..i]);
    }
    if Kept(start, capacity, a.off, h) {
      FetchedIntoFetcher(capacity, g, a);
      FetcherKeepsValue(start, capacity, a.off, h);
    }
  }

  lemma FetchedIntoFetcher(capacity: nat, g: seq<Access>, a: Access)
    requires capacity > 0 && a.off !in FetcherRun(EmptyCache, capacity, g).chunks
    ensures var start := FetcherRun(EmptyCache, capacity, g + [a]);
            a.off in start.chunks && start.chunks[a.off] == a.fetched
  {
    FetcherRunSnoc(EmptyCache, capacity, g, a);
    FetcherRunWellFormed(EmptyCache, capacity, g);
    InsertWellFormed(FetcherRun(EmptyCache, capacity, g), capacity, a.off, a.fetched);
  }

  // ----- RangeLRUStore: first fetched, first evicted -----

  /** The offsets that were really fetched, in order: the gets that missed. */
  function FetchLog(c: Cache, capacity: nat, h: seq<Access>): seq<nat> {
    if h == [] then c.order
    else
      var init, a := h[..|h| - 1], h[|h| - 1];
      if a.off in RangeRun(c, capacity, init).chunks then FetchLog(c, capacity, init)
      else FetchLog(c, capacity, init) + [a.off]
  }

  lemma LastNAppend(s: seq<nat>, x: nat, n: nat)
    ensures LastN(LastN(s, n) + [x], n) == LastN(s + [x], n)
  {
    var head, tail := s[..|s| - |LastN(s, n)|], LastN(s, n);
    assert s + [x] == head + (tail + [x]);
    LastNOfConcat(head, tail + [x], n);
  }

  /** After any sequence of gets the store holds exactly the last capacity fetched offsets, in fetch order. */
  lemma {:induction false} RangeIsFIFO(c: Cache, capacity: nat, h: seq<Access>)
    requires WellFormed(c, capacity) && capacity > 0
    ensures RangeRun(c, capacity, h).order == LastN(FetchLog(c, capacity, h), capacity)
  {
    if h != [] {
      var init, a := h[..|h| - 1], h[|h| - 1];
      RangeIsFIFO(c, capacity, init);
      RangeRunWellFormed(c, capacity, init);
      var mid := RangeRun(c, capacity, init);
      if a.off !in mid.chunks {
        assert a.off !in Elements(mid.order);
        WithoutAbsent(mid.order, a.off);
        LastNAppend(FetchLog(c, capacity, init), a.off, capacity);
      }
    }
  }

  /** The offset was not fetched again since the store held only start. */
  predicate NotFetchedAgain(start: Cache, capacity: nat, off: nat, h: seq<Access>) {
    |start.order| <= |FetchLog(start, capacity, h)| && off !in FetchLog(start, capacity, h)[|start.order|..]
  }

  /**
   How long a fetched chunk, also one that holds an error, is what every get of its offset returns: exactly
   until capacity further chunks have been fetched.
   */
  lemma FetchedChunkStays(c: Cache, capacity: nat, a: Access, h: seq<Access>)
    requires WellFormed(c, capacity) && capacity > 0 && a.off !in c.chunks
    ensures var start := RangeGet(c, capacity, a.off, a.fetched);
            var end := RangeRun(start, capacity, h);
            && ((a.off in end.chunks && NotFetchedAgain(start, capacity, a.off, h))
                <==> |FetchLog(start, capacity, h)| < |start.order| + capacity)
            && (NotFetchedAgain(start, capacity, a.off, h) && a.off in end.chunks ==> end.chunks[a.off] == a.fetched)
  {
    var start := RangeGet(c, capacity, a.off, a.fetched);
    InsertWellFormed(c, capacity, a.off, a.fetched);
    FetchLogGrows(start, capacity, h);
    if |FetchLog(start, capacity, h)| < |start.order| + capacity {
      FetchedStill(start, capacity, a, h);
    } else if NotFetchedAgain(start, capacity, a.off, h) {
      FetchedNoLonger(start, capacity, a.off, h);
    }
  }

  lemma {:induction false} FetchedStill(start: Cache, capacity: nat, a: Access, h: seq<Access>)
    requires WellFormed(start, capacity) && start.order != [] && start.order[|start.order| - 1] == a.off
    requires a.off in start.chunks && start.chunks[a.off] == a.fetched
    requires |FetchLog(start, capacity, h)| < |start.order| + capacity
    ensures var end := RangeRun(start, capacity, h);
            a.off in end.chunks && end.chunks[a.off] == a.fetched && NotFetchedAgain(start, capacity, a.off, h)
  {
    FetchLogGrows(start, capacity, h);
    if h != [] {
      var init := h[..|h| - 1];
      FetchedStill(start, capacity, a, init);
      NewestResident(start, capacity, h);
      var log, before := FetchLog(start, capacity, h), FetchLog(start, capacity, init);
      assert log[|start.order|..] == before[|start.order|..]
             || log[|start.order|..] == before[|start.order|..] + [h[|h| - 1].off];
    }
  }

  /** A logged offset near the end of the log is resident. */
  lemma NewestResident(start: Cache, capacity: nat, h: seq<Access>)
    requires WellFormed(start, capacity) && start.order != []
    requires |FetchLog(start, capacity, h)| < |start.order| + capacity
    ensures start.order[|start.order| - 1] in RangeRun(start, capacity, h).chunks
  {
    var log, off := FetchLog(start, capacity, h), start.order[|start.order| - 1];
    FetchLogGrows(start, capacity, h);
    assert log[|start.order| - 1] == off;
    NearTheEnd(log, |start.order| - 1, capacity);
    RangeIsFIFO(start, capacity, h);
    RangeRunWellFormed(start, capacity, h);
    assert off in Elements(RangeRun(start, capacity, h).order);
  }

  lemma FetchedNoLonger(start: Cache, capacity: nat, off: nat, h: seq<Access>)
    requires WellFormed(start, capacity) && capacity > 0 && NotFetchedAgain(start, capacity, off, h)
    requires |FetchLog(start, capacity, h)| >= |start.order| + capacity
    ensures off !in RangeRun(start, capacity, h).chunks
  {
    var log := FetchLog(start, capacity, h);
    RangeIsFIFO(start, capacity, h);
    RangeRunWellFormed(start, capacity, h);
    var end := RangeRun(start, capacity, h);
    var fetched := log[|start.order|..];
    assert forall i :: 0 <= i < |end.order| ==> end.order[i] == fetched[i + |fetched| - capacity];
    assert off !in Elements(end.order);
  }

  lemma NearTheEnd(s: seq<nat>, i: nat, n: nat)
    requires i < |s| <= i + n
    ensures s[i] in LastN(s, n)
  {
    if |s| > n {
      assert LastN(s, n)[i - (|s| - n)] == s[i];
    }
  }

  lemma {:induction false} FetchLogGrows(c: Cache, capacity: nat, h: seq<Access>)
    ensures c.order <= FetchLog(c, capacity, h)
    ensures h != [] ==> |FetchLog(c, capacity, h[..|h| - 1])| <= |FetchLog(c, capacity, h)|
  {
    if h != [] {
      FetchLogGrows(c, capacity, h[..|h| - 1]);
    }
  }

  lemma RunSnoc(c: Cache, capacity: nat, h: seq<Access>, a: Access)
    ensures RangeRun(c, capacity, h + [a]) == RangeGet(RangeRun(c, capacity, h), capacity, a.off, a.fetched)
    ensures Recency(h + [a]) == Promoted(Recency(h), a.off)
  {
    assert (h + [a])[..|h|] == h;
  }

  // ----- when the two orders agree -----

  /** A get that misses, or that hits the newest chunk. */
  predicate MissOrNewest(c: Cache, off: nat) {
    off in c.chunks ==> c.order != [] && c.order[|c.order| - 1] == off
  }

  ghost predicate HitsAreNewest(c: Cache, capacity: nat, h: seq<Access>) {
    forall i :: 0 <= i < |h| ==> MissOrNewest(RangeRun(c, capacity, h[..i]), h[i].off)
  }

  predicate SameAfter(c: Cache, capacity: nat, h: seq<Access>) {
    RangeRun(c, capacity, h) == FetcherRun(c, capacity, h)
  }

  /** The store behaves as an LRU cache would, all along. */
  ghost predicate AgreesWithLRU(c: Cache, capacity: nat, h: seq<Access>) {
    forall i :: 0 <= i <= |h| ==> SameAfter(c, capacity, h[..i])
  }

  lemma PromotedSame(s: seq<nat>, x: nat)
    requires NoDuplicates(s) && x in s
    ensures Promoted(s, x) == s <==> s[|s| - 1] == x
  {
    if s[|s| - 1] == x {
      WithoutAt(s, x, |s| - 1);
    } else {
      assert Promoted(s, x)[|Promoted(s, x)| - 1] == x;
    }
  }

  lemma GetsAgree(c: Cache, capacity: nat, a: Access)
    requires WellFormed(c, capacity)
    ensures RangeGet(c, capacity, a.off, a.fetched) == FetcherGet(c, capacity, a.off, a.fetched)
            <==> MissOrNewest(c, a.off)
  {
    if a.off in c.chunks {
      assert a.off in Elements(c.order);
      PromotedSame(c.order, a.off);
    }
  }

  lemma AgreesSnoc(c: Cache, capacity: nat, h: seq<Access>, a: Access)
    ensures AgreesWithLRU(c, capacity, h + [a]) <==> AgreesWithLRU(c, capacity, h) && SameAfter(c, capacity, h + [a])
    ensures AgreesWithLRU(c, capacity, h) ==> SameAfter(c, capacity, h)
  {
    PrefixesSnoc(p => SameAfter(c, capacity, p), h, a);
  }

  lemma HitsSnoc(c: Cache, capacity: nat, h: seq<Access>, a: Access)
    ensures HitsAreNewest(c, capacity, h + [a]) <==>
            HitsAreNewest(c, capacity, h) && MissOrNewest(RangeRun(c, capacity, h), a.off)
  {
    var all := h + [a];
    assert all[..|h|] == h && all[|h|] == a;
    assert forall i :: 0 <= i <= |h| ==> h[..i] == all[..i];
  }

  lemma SameStep(c: Cache, capacity: nat, h: seq<Access>, a: Access)
    requires WellFormed(c, capacity) && capacity > 0 && SameAfter(c, capacity, h)
    ensures SameAfter(c, capacity, h + [a]) <==> MissOrNewest(RangeRun(c, capacity, h), a.off)
  {
    RangeRunWellFormed(c, capacity, h);
    RunSnoc(c, capacity, h, a);
    FetcherRunSnoc(c, capacity, h, a);
    GetsAgree(RangeRun(c, capacity, h), capacity, a);
  }

  /**
   When is RangeLRUStore an LRU cache? From any state, it goes through the same states as a cache that
   promotes on a hit if and only if every hit falls on the newest chunk.
   */
  lemma {:induction false} LRUIffHitsAreNewest(c: Cache, capacity: nat, h: seq<Access>)
    requires WellFormed(c, capacity) && capacity > 0
    ensures AgreesWithLRU(c, capacity, h) <==> HitsAreNewest(c, capacity, h)
  {
    if h == [] {
      assert h[..0] == h;
    } else {
      var init, a := h[..|h| - 1], h[|h| - 1];
      assert h == init + [a];
      LRUIffHitsAreNewest(c, capacity, init);
      AgreesSnoc(c, capacity, init, a);
      HitsSnoc(c, capacity, init, a);
      if SameAfter(c, capacity, init) {
        SameStep(c, capacity, init, a);
      }
    }
  }

  /** An error is not tried again: the second get, which would have succeeded, is answered with the first. */
  lemma ErrorAnswersAgain(capacity: nat, bad: Access, good: Access)
    requires capacity > 0 && bad.off == good.off
    ensures RangeRun(EmptyCache, capacity, [bad] + [good]).chunks == map[bad.off := bad.fetched]
    ensures FetcherRun(EmptyCache, capacity, [bad] + [good]).chunks == map[bad.off := bad.fetched]
  {
    RunSnoc(EmptyCache, capacity, [], bad);
    FetcherRunSnoc(EmptyCache, capacity, [], bad);
    assert [] + [bad] == [bad];
    assert RangeRun(EmptyCache, capacity, [bad]) == Cache(map[bad.off := bad.fetched], [bad.off]);
    RunSnoc(EmptyCache, capacity, [bad], good);
    FetcherRunSnoc(EmptyCache, capacity, [bad], good);
  }

  /** Get 0, get 1, get 0 again, get 2. */
  function ReuseThenMiss(a: Chunk, b: Chunk, d: Chunk): seq<Access> {
    [] + [Access(0, a)] + [Access(1, b)] + [Access(0, a)] + [Access(2, d)]
  }

  /** RangeLRUStore is not an LRU cache: with room for two, the chunk just used is the one evicted. */
  lemma RangeIsNotLRU(a: Chunk, b: Chunk, d: Chunk)
    ensures RangeRun(EmptyCache, 2, ReuseThenMiss(a, b, d)).order == [1, 2]
    ensures FetcherRun(EmptyCache, 2, ReuseThenMiss(a, b, d)).order == [0, 2]
  {
    var h1 := [] + [Access(0, a)];
    RunSnoc(EmptyCache, 2, [], Access(0, a));
    assert RangeRun(EmptyCache, 2, h1) == Cache(map[0 := a], [0]);
    assert Recency(h1) == [0];
    RunSnoc(EmptyCache, 2, h1, Access(1, b));
    RangeAfterTwo(a, b, d, h1 + [Access(1, b)]);
    FetcherAfterTwo(a, d, h1 + [Access(1, b)]);
  }

  lemma RangeAfterTwo(a: Chunk, b: Chunk, d: Chunk, h2: seq<Access>)
    requires RangeRun(EmptyCache, 2, h2) == Insert(Cache(map[0 := a], [0]), 2, 1, b)
    ensures RangeRun(EmptyCache, 2, h2 + [Access(0, a)] + [Access(2, d)]).order == [1, 2]
  {
    WithoutAbsent([0], 1);
    assert RangeRun(EmptyCache, 2, h2) == Cache(map[0 := a, 1 := b], [0, 1]);
    RunSnoc(EmptyCache, 2, h2, Access(0, a));
    RunSnoc(EmptyCache, 2, h2 + [Access(0, a)], Access(2, d));
    WithoutAbsent([0, 1], 2);
  }

  lemma FetcherAfterTwo(a: Chunk, d: Chunk, h2: seq<Access>)
    requires Recency(h2) == Promoted([0], 1)
    ensures FetcherRun(EmptyCache, 2, h2 + [Access(0, a)] + [Access(2, d)]).order == [0, 2]
  {
    WithoutAbsent([0], 1);
    RunSnoc(EmptyCache, 2, h2, Access(0, a));
    WithoutAt([0, 1], 0, 0);
    RunSnoc(EmptyCache, 2, h2 + [Access(0, a)], Access(2, d));
    WithoutAbsent([1, 0], 2);
    FetcherIsLRU(2, h2 + [Access(0, a)] + [Access(2, d)]);
  }
}
