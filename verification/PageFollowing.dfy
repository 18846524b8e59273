/** A client that follows next keys from page to page: forwards it gets every result once; backwards it does if and
    only if no key of the collection extends another one. */
module PageFollowing {
  import opened Bytes
  import opened SortedStore
  import opened Pagination

  /** The results gathered over at most n more pages, and the next key then. */
  function Follow<T>(store: set<bytes>, prefix: bytes, page: Page<T>, limit: nat, reverse: bool,
                     g: bytes -> Visit<T>, n: nat): (r: Page<T>)
    decreases n
  {
    if n == 0 || page.nextKey == [] then page else
    var p := NextPage(store, prefix, page.nextKey, limit, reverse, g);
    Follow(store, prefix, Page(page.results + p.results, p.nextKey, page.total), limit, reverse, g, n - 1)
  }

  /** From each entry's key, stripped and sent back, the scan goes on with that entry. */
  ghost predicate Resumable(store: set<bytes>, prefix: bytes, reverse: bool, ks: seq<bytes>) {
    && (forall j :: 0 <= j < |ks| ==> Scan(store, prefix, Strip(prefix, ks[j]), reverse) == ks[j..])
    && (forall j :: 0 < j < |ks| ==> Strip(prefix, ks[j]) != [])
  }

  lemma {:induction false} FollowTail<T>(store: set<bytes>, prefix: bytes, page: Page<T>, limit: nat, reverse: bool,
                                         g: bytes -> Visit<T>, n: nat, ks: seq<bytes>, j: nat)
    requires Resumable(store, prefix, reverse, ks) && limit >= 1 && j <= |ks| <= n + j
    requires page.nextKey == if j < |ks| then Strip(prefix, ks[j]) else []
    requires 0 < j
    ensures var r := Follow(store, prefix, page, limit, reverse, g, n);
            r.nextKey == [] && r.results == page.results + Hits(ks[j..], g)
    decreases n
  {
    hide Scan, Strip, NextPage, Hits;
    if j == |ks| {
      NoHits(ks, g);
    } else {
      var p := NextPage(store, prefix, page.nextKey, limit, reverse, g);
      var m := if j + limit < |ks| then j + limit else |ks|;
      PageFrom(store, prefix, limit, reverse, g, ks, j, m);
      FollowTail(store, prefix, Page(page.results + p.results, p.nextKey, page.total), limit, reverse, g, n - 1, ks, m);
      assert page.results + p.results + Hits(ks[m..], g) == page.results + (p.results + Hits(ks[m..], g));
    }
  }

  lemma NoHits<T>(ks: seq<bytes>, g: bytes -> Visit<T>)
    ensures Hits(ks[|ks|..], g) == []
  {
  }

  /** The page after the one that ended at j. */
  lemma PageFrom<T>(store: set<bytes>, prefix: bytes, limit: nat, reverse: bool, g: bytes -> Visit<T>,
                    ks: seq<bytes>, j: nat, m: nat)
    requires Resumable(store, prefix, reverse, ks) && j < |ks| && m == if j + limit < |ks| then j + limit else |ks|
    ensures var p := NextPage(store, prefix, Strip(prefix, ks[j]), limit, reverse, g);
            && p.nextKey == (if m < |ks| then Strip(prefix, ks[m]) else [])
            && Hits(ks[j..], g) == p.results + Hits(ks[m..], g)
  {
    hide Scan, Hits;
    StripNothing(prefix);
    assert Take(ks[j..], limit) == ks[j..m];
    assert ks[j..] == ks[j..m] + ks[m..];
    HitsAppend(ks[j..m], ks[m..], g);
  }

  lemma StripNothing(prefix: bytes)
    ensures Strip(prefix, []) == []
  {
  }

  /** Where results pass the limit, a page ends. */
  lemma {:induction false} LimitIsCrossed<T>(ks: seq<bytes>, limit: nat, g: bytes -> Visit<T>, n: nat)
    requires n <= |ks| && |Hits(ks[..n], g)| > limit
    ensures exists j :: PageEndsAt(ks, limit, g, j)
  {
    if n > 0 {
      HitsSnoc(ks, n - 1, g);
      if |Hits(ks[..n - 1], g)| > limit {
        LimitIsCrossed(ks, limit, g, n - 1);
      } else {
        assert PageEndsAt(ks, limit, g, n - 1);
      }
    }
  }

  /** A page by offset loses nothing: its results, then those from its next key on, are all there is. */
  lemma FirstPageSplits<T>(ks: seq<bytes>, limit: nat, countTotal: bool, g: bytes -> Visit<T>, results: seq<T>,
                           next: bytes) returns (j: nat)
    requires IsFirstPage(ks, limit, countTotal, g, results, next) && limit >= 1
    ensures j <= |ks| && (next == if j < |ks| then ks[j] else []) && (0 < j || j == |ks|)
    ensures Hits(ks, g) == results + Hits(ks[j..], g)
  {
    assert ks[..|ks|] == ks;
    if exists i :: PageEndsAt(ks, limit, g, i) {
      var i :| PageEndsAt(ks, limit, g, i) && next == ks[i];
      HitsSplit(ks, i, g);
      return i;
    } else {
      if |Hits(ks, g)| > limit { LimitIsCrossed(ks, limit, g, |ks|); }
      j := |ks|;
      assert Hits(ks[j..], g) == [];
    }
  }

  lemma {:induction false} FollowingIsLossless<T>(store: set<bytes>, prefix: bytes, offset: nat, limit: nat,
                                                  countTotal: bool, reverse: bool, g: bytes -> Visit<T>,
                                                  page: Page<T>, n: nat)
    requires var ks := Scan(store, prefix, [], reverse);
             && Resumable(store, prefix, reverse, ks) && offset <= |ks| <= n && limit >= 1
             && FirstPage(ks[offset..], prefix, limit, countTotal, g, page)
    ensures var r := Follow(store, prefix, page, limit, reverse, g, n);
            r.nextKey == [] && r.results == Hits(Scan(store, prefix, [], reverse)[offset..], g)
  {
    hide Scan, Resumable, IsFirstPage, Follow, Strip;
    var ks := Scan(store, prefix, [], reverse);
    var rest := ks[offset..];
    var next :| IsFirstPage(rest, limit, countTotal, g, page.results, next) && page.nextKey == Strip(prefix, next);
    var j := FirstPageSplits(rest, limit, countTotal, g, page.results, next);
    StripNothing(prefix);
    assert ks[offset + j..] == rest[j..];
    if offset + j == 0 {
      NoNextKey(store, prefix, page, limit, reverse, g, n);
    } else {
      FollowTail(store, prefix, page, limit, reverse, g, n, ks, offset + j);
    }
  }

  lemma NoNextKey<T>(store: set<bytes>, prefix: bytes, page: Page<T>, limit: nat, reverse: bool,
                     g: bytes -> Visit<T>, n: nat)
    requires page.nextKey == []
    ensures Follow(store, prefix, page, limit, reverse, g, n) == page
  {
  }

  lemma {:induction false} AllHit<T>(ks: seq<bytes>, g: bytes -> Visit<T>)
    ensures |Hits(ks, g)| == |ks| <==> forall i :: 0 <= i < |ks| ==> g(ks[i]).Emit?
  {
    if ks != [] {
      AllHit(ks[1..], g);
      assert (forall i :: 0 <= i < |ks| ==> g(ks[i]).Emit?) <==>
        g(ks[0]).Emit? && forall i :: 0 <= i < |ks[1..]| ==> g(ks[1..][i]).Emit? by {
        assert forall i :: 0 < i < |ks| ==> ks[1..][i - 1] == ks[i];
      }
    }
  }

  /** The total a counting page reports is the number of results if and only if everything before the offset is one and
      the number fits 64 bits: an offset skips entries, not results. */
  lemma TotalIsExact<T>(ks: seq<bytes>, offset: u64, g: bytes -> Visit<T>)
    requires offset <= |ks|
    ensures ReportedTotal(ks, offset, g) == |Hits(ks, g)| <==>
              (forall i :: 0 <= i < offset ==> g(ks[i]).Emit?) && |Hits(ks, g)| < U64_SIZE
  {
    hide Hits;
    HitsSplit(ks, offset, g);
    AllHit(ks[..offset], g);
    assert forall i :: 0 <= i < offset ==> ks[..offset][i] == ks[i];
    ModFits(|Hits(ks, g)|, offset - |Hits(ks[..offset], g)|);
  }

  lemma ModFits(n: nat, d: nat)
    requires d < U64_SIZE
    ensures (n + d) % U64_SIZE == n <==> d == 0 && n < U64_SIZE
  {
  }

  /** A skipped entry before the offset: one result, and a total of two. */
  lemma TotalCountsSkipped()
    ensures var ks, g := [[1], [2]], (k: bytes) => if k == [2] then Emit(k) else Skip;
            Hits(ks, g) == [[2]] && ReportedTotal(ks, 1, g) == 2
  {
    var ks: seq<bytes>, g := [[1], [2]], (k: bytes) => if k == [2] then Emit(k) else Skip;
    assert ks[1..] == [[2]] && ks[1..][1..] == [];
  }

  // ---------------------------------------------------------------- forwards

  lemma FromIndex(ks: seq<bytes>, j: nat, k: bytes)
    requires Ascending(ks) && j < |ks|
    ensures k in ks[j..] <==> k in ks && !Less(k, ks[j])
    ensures k in ks[..j + 1] <==> k in ks && !Less(ks[j], k)
  {
    if k in ks {
      var i :| 0 <= i < |ks| && ks[i] == k;
      LessIrreflexive(k);
      if i < j { if Less(ks[j], k) { LessTransitive(k, ks[j], k); } } 
      if j < i { if Less(k, ks[j]) { LessTransitive(k, ks[j], k); } }
      assert i >= j ==> ks[j..][i - j] == k;
      assert i <= j ==> ks[..j + 1][i] == k;
      if k in ks[j..] { var x :| 0 <= x < |ks[j..]| && ks[j..][x] == k; AscendingDistinct(ks, i, j + x); }
      if k in ks[..j + 1] { var x :| 0 <= x < j + 1 && ks[x] == k; AscendingDistinct(ks, i, x); }
    }
  }

  lemma ForwardResumes(store: set<bytes>, prefix: bytes)
    ensures Resumable(store, prefix, false, Scan(store, prefix, [], false))
  {
    var ks := Scan(store, prefix, [], false);
    assert prefix + [] == prefix;
    forall j | 0 <= j < |ks|
      ensures Scan(store, prefix, Strip(prefix, ks[j]), false) == ks[j..]
      ensures j > 0 ==> Strip(prefix, ks[j]) != [] {
      ForwardResumesAt(store, prefix, j);
    }
  }

  lemma ForwardResumesAt(store: set<bytes>, prefix: bytes, j: nat)
    requires j < |Scan(store, prefix, [], false)|
    ensures var ks := Scan(store, prefix, [], false);
            Scan(store, prefix, Strip(prefix, ks[j]), false) == ks[j..] && (j > 0 ==> Strip(prefix, ks[j]) != [])
  {
    hide Scan, PrefixEnd, RangeKeys;
    var ks := Scan(store, prefix, [], false);
    assert prefix + [] == prefix;
    ForwardScan(store, prefix, []);
    ForwardScan(store, prefix, Strip(prefix, ks[j]));
    ScanHasPrefix(store, prefix, [], false, ks[j]);
    ScanHasPrefix(store, prefix, [], false, ks[0]);
    assert prefix + Strip(prefix, ks[j]) == ks[j];
    var later := RangeKeys(store, ks[j], PrefixEnd(prefix));
    forall k ensures k in later <==> k in ks[j..] {
      FromIndex(ks, j, k);
      AtOrAbove(k, prefix, ks[j]);
    }
    assert Ascending(ks[j..]);
    AscendingUnique(later, ks[j..]);
    assert ks[0] == prefix + ks[0][|prefix|..];
    LessExtension(prefix, ks[0][|prefix|..]);
    assert j > 0 ==> Less(ks[0], ks[j]);
    assert Strip(prefix, ks[j]) == [] ==> ks[j] == prefix;
  }

  lemma AtOrAbove(k: bytes, prefix: bytes, a: bytes)
    requires prefix <= a
    ensures !Less(k, a) ==> !Less(k, prefix)
  {
    assert a == prefix + a[|prefix|..];
    LessExtension(prefix, a[|prefix|..]);
    if Less(k, prefix) && prefix != a { LessTransitive(k, prefix, a); }
  }

  /** Forwards every client gets every result exactly once, in order. */
  lemma ForwardIsLossless<T>(store: set<bytes>, prefix: bytes, offset: nat, limit: nat, countTotal: bool,
                             g: bytes -> Visit<T>, page: Page<T>, n: nat)
    requires var ks := Scan(store, prefix, [], false);
             offset <= |ks| <= n && limit >= 1 && FirstPage(ks[offset..], prefix, limit, countTotal, g, page)
    ensures var r := Follow(store, prefix, page, limit, false, g, n);
            r.nextKey == [] && r.results == Hits(Scan(store, prefix, [], false)[offset..], g)
  {
    hide Scan, FirstPage, Resumable, Follow;
    ForwardResumes(store, prefix);
    FollowingIsLossless(store, prefix, offset, limit, countTotal, false, g, page, n);
  }

  // ---------------------------------------------------------------- backwards

  /** Keys that properly extend a key. */
  function Extensions(store: set<bytes>, full: bytes): set<bytes> { set k | k in store && full <= k && k != full }

  ghost predicate PrefixFree(ks: seq<bytes>) {
    forall a, b :: a in ks && b in ks && a <= b ==> a == b
  }

  /** Below the end of a key's prefix range: the keys up to it, and its extensions. */
  lemma BelowEnd(k: bytes, full: bytes)
    ensures (PrefixEnd(full).None? || Less(k, PrefixEnd(full).value)) <==> Less(k, full) || full <= k
  {
    PrefixEndIsExact(full, k);
    if Less(k, full) && PrefixEnd(full).Some? {
      PrefixEndIsExact(full, full);
      LessTransitive(k, full, PrefixEnd(full).value);
    }
  }

  /** A scan visits the keys with the prefix from the start key on, going up; going down, those that come before it or
      extend it. */
  lemma ScanExactly(store: set<bytes>, prefix: bytes, start: bytes, reverse: bool, k: bytes)
    ensures k in Scan(store, prefix, start, reverse) <==>
              && k in store && prefix <= k
              && if reverse then Less(k, prefix + start) || prefix + start <= k else !Less(k, prefix + start)
  {
    hide PrefixEnd, Less;
    PrefixEndIsExact(prefix, k);
    KeyOrder(prefix, k);
    if reverse {
      InReversed(RangeKeys(store, prefix, PrefixEnd(prefix + start)), k);
      BelowEnd(k, prefix + start);
      if k in Scan(store, prefix, start, true) { ScanHasPrefix(store, prefix, start, true, k); }
    } else if k in Scan(store, prefix, start, false) {
      ScanHasPrefix(store, prefix, start, false, k);
    }
  }

  /** It goes strictly up or strictly down. */
  lemma ScanIsOrdered(store: set<bytes>, prefix: bytes, start: bytes, reverse: bool, i: nat, j: nat)
    requires i < j < |Scan(store, prefix, start, reverse)|
    ensures var ks := Scan(store, prefix, start, reverse); if reverse then Less(ks[j], ks[i]) else Less(ks[i], ks[j])
  {
    hide PrefixEnd, Less;
  }

  /** Going down, a scan from a key visits its extensions again, then goes on with the key. */
  lemma ReverseResumesAt(store: set<bytes>, prefix: bytes, j: nat)
    requires j < |Scan(store, prefix, [], true)|
    ensures var ks := Scan(store, prefix, [], true);
            && prefix + Strip(prefix, ks[j]) == ks[j]
            && Scan(store, prefix, Strip(prefix, ks[j]), true) == Reversed(Keys(Extensions(store, ks[j]))) + ks[j..]
  {
    hide Scan, RangeKeys, Keys, PrefixEnd, Reversed, Extensions;
    var ks := Scan(store, prefix, [], true);
    var asc := RangeKeys(store, prefix, PrefixEnd(prefix));
    ReverseScan(store, prefix, []);
    assert prefix + [] == prefix;
    var i := |asc| - 1 - j;
    ScanHasPrefix(store, prefix, [], true, ks[j]);
    assert prefix + Strip(prefix, ks[j]) == ks[j];
    ReverseScan(store, prefix, Strip(prefix, ks[j]));
    var ext := Keys(Extensions(store, ks[j]));
    DownTo(store, prefix, asc, i, ext, RangeKeys(store, prefix, PrefixEnd(ks[j])));
    ReversedAppend(asc[..i + 1], ext);
    assert Reversed(asc[..i + 1]) == ks[j..];
  }

  lemma ReverseScan(store: set<bytes>, prefix: bytes, start: bytes)
    ensures Scan(store, prefix, start, true) == Reversed(RangeKeys(store, prefix, PrefixEnd(prefix + start)))
  {
  }

  lemma ForwardScan(store: set<bytes>, prefix: bytes, start: bytes)
    ensures Scan(store, prefix, start, false) == RangeKeys(store, prefix + start, PrefixEnd(prefix))
  {
  }

  lemma ReversedAppend<T>(a: seq<T>, b: seq<T>)
    ensures Reversed(a + b) == Reversed(b) + Reversed(a)
  {
  }

  lemma DownTo(store: set<bytes>, prefix: bytes, asc: seq<bytes>, i: nat, ext: seq<bytes>, all: seq<bytes>)
    requires asc == RangeKeys(store, prefix, PrefixEnd(prefix)) && i < |asc| && prefix <= asc[i]
    requires ext == Keys(Extensions(store, asc[i])) && all == RangeKeys(store, prefix, PrefixEnd(asc[i]))
    ensures all == asc[..i + 1] + ext
  {
    hide PrefixEnd, RangeKeys, Keys;
    var full := asc[i];
    var sum := asc[..i + 1] + ext;
    forall k ensures k in all <==> k in sum {
      FromIndex(asc, i, k);
      BelowEnd(k, full);
      PrefixEndIsExact(prefix, k);
      LessTotal(k, full);
      AtOrAbove(k, prefix, full);
      KeyOrder(full, k);
      if Less(k, full) && !Less(k, prefix) { StaysBelow(prefix, full, k); }
    }
    forall x, y | 0 <= x < y < |sum| ensures Less(sum[x], sum[y]) {
      if x <= i < y {
        assert sum[y] == ext[y - i - 1] && sum[y] in ext;
        KeyOrder(full, sum[y]);
        if x < i { LessTransitive(sum[x], full, sum[y]); }
      } else if y > i {
        assert sum[x] == ext[x - i - 1] && sum[y] == ext[y - i - 1];
      }
    }
    AscendingUnique(all, sum);
  }

  lemma StaysBelow(prefix: bytes, full: bytes, k: bytes)
    requires prefix <= full && Less(k, full) && !Less(k, prefix)
    ensures prefix <= k
  {
    assert full == prefix + full[|prefix|..];
    SharedPrefix(prefix, k, full[|prefix|..]);
  }

  lemma KeyOrder(a: bytes, b: bytes)
    ensures a <= b ==> !Less(b, a) && (a != b ==> Less(a, b))
  {
    if a <= b {
      assert b == a + b[|a|..];
      LessExtension(a, b[|a|..]);
    }
  }

  lemma NoExtensions(store: set<bytes>, prefix: bytes, j: nat)
    requires j < |Scan(store, prefix, [], true)| && PrefixFree(Scan(store, prefix, [], true))
    ensures Extensions(store, Scan(store, prefix, [], true)[j]) == {}
  {
    var ks := Scan(store, prefix, [], true);
    var full := ks[j];
    ScanHasPrefix(store, prefix, [], true, full);
    assert prefix + [] == prefix;
    forall k | k in store && full <= k ensures k == full {
      PrefixEndIsExact(prefix, k);
      InReversed(RangeKeys(store, prefix, PrefixEnd(prefix)), k);
      assert k in ks;
    }
  }

  lemma ReverseResumes(store: set<bytes>, prefix: bytes)
    requires PrefixFree(Scan(store, prefix, [], true))
    ensures Resumable(store, prefix, true, Scan(store, prefix, [], true))
  {
    var ks := Scan(store, prefix, [], true);
    hide Scan;
    forall j | 0 <= j < |ks|
      ensures Scan(store, prefix, Strip(prefix, ks[j]), true) == ks[j..]
      ensures j > 0 ==> Strip(prefix, ks[j]) != [] {
      NoExtensions(store, prefix, j);
      ReverseResumesAt(store, prefix, j);
      assert Reversed(Keys({})) == [];
      ScanHasPrefix(store, prefix, [], true, ks[0]);
      if j > 0 { ScanDistinct(store, prefix, 0, j); }
      assert ks[0] in ks && ks[j] in ks;
    }
  }

  lemma ScanDistinct(store: set<bytes>, prefix: bytes, i: nat, j: nat)
    requires i < j < |Scan(store, prefix, [], true)|
    ensures Less(Scan(store, prefix, [], true)[j], Scan(store, prefix, [], true)[i])
    ensures Scan(store, prefix, [], true)[j] != Scan(store, prefix, [], true)[i]
  {
    LessIrreflexive(Scan(store, prefix, [], true)[i]);
  }

  lemma ReverseIsLossless<T>(store: set<bytes>, prefix: bytes, offset: nat, limit: nat, countTotal: bool,
                             g: bytes -> Visit<T>, page: Page<T>, n: nat)
    requires var ks := Scan(store, prefix, [], true);
             && PrefixFree(ks) && offset <= |ks| <= n && limit >= 1
             && FirstPage(ks[offset..], prefix, limit, countTotal, g, page)
    ensures var r := Follow(store, prefix, page, limit, true, g, n);
            r.nextKey == [] && r.results == Hits(Scan(store, prefix, [], true)[offset..], g)
  {
    hide Scan, FirstPage, Resumable, Follow, PrefixFree;
    ReverseResumes(store, prefix);
    FollowingIsLossless(store, prefix, offset, limit, countTotal, true, g, page, n);
  }

  const EmitKey: bytes -> Visit<bytes> := k => Emit(k)

  lemma {:induction false} HitsOfAll(ks: seq<bytes>)
    ensures Hits(ks, EmitKey) == ks
  {
    if ks != [] {
      HitsOfAll(ks[1..]);
      assert ks == [ks[0]] + ks[1..];
    }
  }

  lemma {:induction false} FollowExtends<T>(store: set<bytes>, prefix: bytes, page: Page<T>, limit: nat,
                                            reverse: bool, g: bytes -> Visit<T>, n: nat)
    ensures page.results <= Follow(store, prefix, page, limit, reverse, g, n).results
    decreases n
  {
    hide NextPage;
    if n > 0 && page.nextKey != [] {
      var p := NextPage(store, prefix, page.nextKey, limit, reverse, g);
      FollowExtends(store, prefix, Page(page.results + p.results, p.nextKey, page.total), limit, reverse, g, n - 1);
    }
  }

  /** The page by offset that ends right before the j-th key. */
  lemma PageBefore(ks: seq<bytes>, prefix: bytes, j: nat)
    requires j < |ks|
    ensures FirstPage(ks, prefix, j, false, EmitKey, Page(ks[..j], Strip(prefix, ks[j]), 0))
  {
    HitsOfAll(ks);
    forall i | 0 <= i < |ks| ensures PageEndsAt(ks, j, EmitKey, i) <==> i == j { HitsOfAll(ks[..i]); }
    assert OutermostEnd(ks, j, false, EmitKey, j);
    assert IsFirstPage(ks, j, false, EmitKey, ks[..j], ks[j]);
  }

  /** What comes after that page starts with an extension of its next key. */
  lemma RevisitsExtensions(store: set<bytes>, prefix: bytes, j: nat)
    requires var ks := Scan(store, prefix, [], true);
             j < |ks| && 1 <= j && Extensions(store, ks[j]) != {}
    ensures var ks := Scan(store, prefix, [], true);
            var p := NextPage(store, prefix, Strip(prefix, ks[j]), j, true, EmitKey);
            p.results != [] && p.results[0] != ks[j]
  {
    hide Scan, Strip, Keys;
    var ks := Scan(store, prefix, [], true);
    ReverseResumesAt(store, prefix, j);
    var ext := Keys(Extensions(store, ks[j]));
    var again := Scan(store, prefix, Strip(prefix, ks[j]), true);
    HitsOfAll(Take(again, j));
    assert again[0] == ext[|ext| - 1] && ext[|ext| - 1] in ext;
  }

  lemma ReverseBreaks(store: set<bytes>, prefix: bytes, j: nat, n: nat)
    requires var ks := Scan(store, prefix, [], true);
             j < |ks| && 1 <= j && n >= 1 && Extensions(store, ks[j]) != {}
    ensures var ks := Scan(store, prefix, [], true);
            Follow(store, prefix, Page(ks[..j], Strip(prefix, ks[j]), 0), j, true, EmitKey, n).results != ks
  {
    hide Scan, Strip, NextPage;
    var ks := Scan(store, prefix, [], true);
    var key := Strip(prefix, ks[j]);
    if key != [] {
      var p := NextPage(store, prefix, key, j, true, EmitKey);
      RevisitsExtensions(store, prefix, j);
      FollowExtends(store, prefix, Page(ks[..j] + p.results, p.nextKey, 0), j, true, EmitKey, n - 1);
      assert (ks[..j] + p.results)[j] == p.results[0];
    }
  }

  /** Going down, following the next keys gives every client every key once, in order, if and only if no key of the
      range extends another one. */
  lemma ReverseIsLosslessExactly(store: set<bytes>, prefix: bytes)
    ensures var ks := Scan(store, prefix, [], true);
            PrefixFree(ks) <==>
              forall limit: nat, page, n: nat ::
                limit >= 1 && n >= |ks| && FirstPage(ks, prefix, limit, false, EmitKey, page) ==>
                Follow(store, prefix, page, limit, true, EmitKey, n).results == ks
  {
    hide Scan, Strip, Follow, FirstPage, Hits;
    var ks := Scan(store, prefix, [], true);
    if PrefixFree(ks) {
      forall limit: nat, page, n: nat | limit >= 1 && n >= |ks| && FirstPage(ks, prefix, limit, false, EmitKey, page)
        ensures Follow(store, prefix, page, limit, true, EmitKey, n).results == ks {
        assert ks[0..] == ks;
        ReverseIsLossless(store, prefix, 0, limit, false, EmitKey, page, n);
        HitsOfAll(ks);
      }
    } else {
      var j := ExtendedKey(store, prefix);
      PageBefore(ks, prefix, j);
      ReverseBreaks(store, prefix, j, |ks|);
      assert Follow(store, prefix, Page(ks[..j], Strip(prefix, ks[j]), 0), j, true, EmitKey, |ks|).results != ks;
    }
  }

  lemma ExtendedKey(store: set<bytes>, prefix: bytes) returns (j: nat)
    requires !PrefixFree(Scan(store, prefix, [], true))
    ensures var ks := Scan(store, prefix, [], true); 1 <= j < |ks| && Extensions(store, ks[j]) != {}
  {
    hide Scan;
    var ks := Scan(store, prefix, [], true);
    var a, b :| a in ks && b in ks && a <= b && a != b;
    j :| 0 <= j < |ks| && ks[j] == a;
    var i: nat :| 0 <= i < |ks| && ks[i] == b;
    ScanHasPrefix(store, prefix, [], true, b);
    assert b in Extensions(store, a);
    KeyOrder(a, b);
    if j < i { ScanDistinct(store, prefix, j, i); LessTransitive(a, b, a); LessIrreflexive(a); }
  }

  /** When as many keys extend a page's next key as a page holds, the client is sent back to that key for ever. */
  lemma {:induction false} StuckForever(store: set<bytes>, prefix: bytes, page: Page<bytes>, n: nat, j: nat)
    requires var ks := Scan(store, prefix, [], true);
             && j < |ks| && Extensions(store, ks[j]) != {}
             && page.nextKey == Strip(prefix, ks[j]) && page.nextKey != []
    ensures var limit := |Extensions(store, Scan(store, prefix, [], true)[j])|;
            var r := Follow(store, prefix, page, limit, true, EmitKey, n);
            r.nextKey == page.nextKey && |r.results| == |page.results| + n * limit
    decreases n
  {
    hide Scan, Strip, Keys, NextPage;
    if n > 0 {
      var ks := Scan(store, prefix, [], true);
      var limit := |Extensions(store, ks[j])|;
      var p := NextPage(store, prefix, page.nextKey, limit, true, EmitKey);
      SameKeyAgain(store, prefix, j);
      StuckForever(store, prefix, Page(page.results + p.results, p.nextKey, page.total), n - 1, j);
      assert n * limit == (n - 1) * limit + limit;
    }
  }

  lemma SameKeyAgain(store: set<bytes>, prefix: bytes, j: nat)
    requires j < |Scan(store, prefix, [], true)|
    ensures var k := Scan(store, prefix, [], true)[j];
            var limit := |Extensions(store, k)|;
            var p := NextPage(store, prefix, Strip(prefix, k), limit, true, EmitKey);
            p.nextKey == Strip(prefix, k) && |p.results| == limit
  {
    hide Scan, Strip, Keys;
    var ks := Scan(store, prefix, [], true);
    ReverseResumesAt(store, prefix, j);
    var again := Scan(store, prefix, Strip(prefix, ks[j]), true);
    var limit := |Extensions(store, ks[j])|;
    assert again[limit] == ks[j];
    HitsOfAll(Take(again, limit));
  }

  /** Such a store: the client gets [1, 0] over and over and never sees [1]. */
  lemma StuckExample(n: nat)
    ensures var store, page := {[1], [1, 0]}, Page([[1, 0]], [1], 0);
            var r := Follow(store, [], page, 1, true, EmitKey, n);
            && FirstPage(Scan(store, [], [], true), [], 1, false, EmitKey, page)
            && r.nextKey == [1] && |r.results| == 1 + n
  {
    hide Follow, FirstPage;
    var store: set<bytes>, page: Page<bytes> := {[1], [1, 0]}, Page([[1, 0]], [1], 0);
    TwoKeys(store);
    var ks := Scan(store, [], [], true);
    assert ks[..1] == [[1, 0]] && Strip([], ks[1]) == [1];
    PageBefore(ks, [], 1);
    assert [1, 0] in Extensions(store, [1]) && Extensions(store, [1]) == {[1, 0]};
    StuckForever(store, [], page, n, 1);
  }

  lemma TwoKeys(store: set<bytes>)
    requires store == {[1], [1, 0]}
    ensures Scan(store, [], [], true) == [[1, 0], [1]]
  {
    hide RangeKeys, Less, Scan;
    ReverseScan(store, [], []);
    var ks: seq<bytes> := [[1], [1, 0]];
    var list := RangeKeys(store, [], PrefixEnd([]));
    var none: bytes := [];
    assert none + none == none;
    KeyOrder(ks[0], ks[1]);
    forall k: bytes ensures InRange(k, [], PrefixEnd([])) { PrefixEndIsExact([], k); }
    assert forall k :: k in ks <==> k in store;
    AscendingUnique(ks, list);
  }
}
