/** Pagination over a collection's raw keys: a page by offset, a page by key, and what a client gets that follows
    the keys. */
module Pagination {
  import opened Bytes
  import opened SortedStore

  /** What the predicate and the transformation say of the entry at a key. */
  datatype Visit<T> = Skip | Emit(t: T) | PredicateError | TransformError

  datatype Page<T> = Page(results: seq<T>, nextKey: bytes, total: u64)

  datatype Outcome<T> = Done(page: Page<T>) | InvalidIterator | Failed | Panicked

  datatype Request = Request(key: bytes, offset: u64, limit: u64, countTotal: bool, reverse: bool)

  const DEFAULT_LIMIT: u64 := 100

  /** initPageRequestDefaults. */
  function WithDefaults(r: Request): Request {
    if r.limit == 0 then r.(limit := DEFAULT_LIMIT, countTotal := true) else r
  }

  function Reversed<T>(s: seq<T>): (r: seq<T>)
    ensures |r| == |s|
    ensures forall i :: 0 <= i < |s| ==> r[i] == s[|s| - 1 - i]
  {
    if s == [] then [] else Reversed(s[1..]) + [s[0]]
  }

  /** getCollIter: the keys visited. Going down, the range ends after everything that starts with the start key. */
  function Scan(store: set<bytes>, prefix: bytes, start: bytes, reverse: bool): (ks: seq<bytes>) {
    if reverse then Reversed(RangeKeys(store, prefix, PrefixEnd(prefix + start)))
    else RangeKeys(store, prefix + start, PrefixEnd(prefix))
  }

  // ---------------------------------------------------------------- what pages hold

  predicate Clean<T(!new)>(ks: seq<bytes>, g: bytes -> Visit<T>) {
    forall k :: k in ks ==> g(k).Skip? || g(k).Emit?
  }

  /** All results of a list of keys. */
  function Hits<T>(ks: seq<bytes>, g: bytes -> Visit<T>): (ts: seq<T>)
    ensures |ts| <= |ks|
  {
    if ks == [] then [] else (if g(ks[0]).Emit? then [g(ks[0]).t] else []) + Hits(ks[1..], g)
  }

  lemma {:induction false} HitsAppend<T>(a: seq<bytes>, b: seq<bytes>, g: bytes -> Visit<T>)
    ensures Hits(a + b, g) == Hits(a, g) + Hits(b, g)
  {
    if a == [] {
      assert a + b == b;
    } else {
      assert (a + b)[1..] == a[1..] + b;
      HitsAppend(a[1..], b, g);
      var x := if g(a[0]).Emit? then [g(a[0]).t] else [];
      assert x + (Hits(a[1..], g) + Hits(b, g)) == x + Hits(a[1..], g) + Hits(b, g);
    }
  }

  lemma HitsSnoc<T>(ks: seq<bytes>, i: nat, g: bytes -> Visit<T>)
    requires i < |ks|
    ensures Hits(ks[..i + 1], g) == Hits(ks[..i], g) + if g(ks[i]).Emit? then [g(ks[i]).t] else []
  {
    assert ks[..i + 1] == ks[..i] + [ks[i]];
    HitsAppend(ks[..i], [ks[i]], g);
    assert Hits([ks[i]][1..], g) == [];
  }

  /** Exactly the results of a full page come before this entry. */
  ghost predicate PageEndsAt<T>(ks: seq<bytes>, limit: nat, g: bytes -> Visit<T>, j: int) {
    0 <= j < |ks| && |Hits(ks[..j], g)| == limit
  }

  /** A page taken by offset: as many results as the limit allows, and a next key at which the page ends: the first
      such entry, or with counting the last one. */
  ghost predicate IsFirstPage<T>(ks: seq<bytes>, limit: nat, countTotal: bool, g: bytes -> Visit<T>, results: seq<T>,
                                 next: bytes) {
    && results == Take(Hits(ks, g), limit)
    && if exists j :: PageEndsAt(ks, limit, g, j) then
         exists j :: PageEndsAt(ks, limit, g, j) && next == ks[j] && OutermostEnd(ks, limit, countTotal, g, j)
       else next == []
  }

  ghost predicate OutermostEnd<T>(ks: seq<bytes>, limit: nat, last: bool, g: bytes -> Visit<T>, j: int) {
    forall i :: PageEndsAt(ks, limit, g, i) ==> if last then i <= j else j <= i
  }

  /** A page taken by key counts the entries it looks at. */
  function PageByKey<T>(ks: seq<bytes>, limit: nat, g: bytes -> Visit<T>): (p: Page<T>) {
    Page(Hits(Take(ks, limit), g), if limit < |ks| then ks[limit] else [], 0)
  }

  // ---------------------------------------------------------------- the two loops

  /** advanceIter: false when the iterator runs out before the offset. */
  method AdvanceIter(ks: seq<bytes>, offset: u64) returns (ok: bool, i: nat)
    ensures ok <==> offset <= |ks|
    ensures ok ==> i == offset
  {
    i := 0;
    while i < offset
      invariant i <= offset && i <= |ks|
    {
      if i == |ks| { return false, i; }
      i := i + 1;
    }
    ok := true;
  }

  /** How many entries the predicate does not skip. */
  function Matched<T>(ks: seq<bytes>, g: bytes -> Visit<T>): (n: nat) {
    if ks == [] then 0 else (if g(ks[0]).Skip? then 0 else 1) + Matched(ks[1..], g)
  }

  /** The entry's error ends a page by offset: within the limit any error, beyond it, when counting, the predicate's. */
  ghost predicate FailsAt<T>(ks: seq<bytes>, limit: nat, countTotal: bool, g: bytes -> Visit<T>, n: int) {
    0 <= n < |ks| &&
    if Matched(ks[..n], g) < limit then g(ks[n]).PredicateError? || g(ks[n]).TransformError?
    else countTotal && g(ks[n]).PredicateError?
  }

  ghost predicate Fails<T>(ks: seq<bytes>, limit: nat, countTotal: bool, g: bytes -> Visit<T>) {
    exists n :: FailsAt(ks, limit, countTotal, g, n)
  }

  lemma {:induction false} MatchedAppend<T>(a: seq<bytes>, b: seq<bytes>, g: bytes -> Visit<T>)
    ensures Matched(a + b, g) == Matched(a, g) + Matched(b, g)
  {
    if a == [] {
      assert a + b == b;
    } else {
      assert (a + b)[1..] == a[1..] + b;
      MatchedAppend(a[1..], b, g);
    }
  }

  lemma MatchedUpTo<T>(ks: seq<bytes>, i: nat, j: nat, g: bytes -> Visit<T>)
    requires i <= j <= |ks|
    ensures Matched(ks[..i], g) <= Matched(ks[..j], g)
    ensures j == i + 1 ==> Matched(ks[..j], g) == Matched(ks[..i], g) + if g(ks[i]).Skip? then 0 else 1
  {
    assert ks[..j] == ks[..i] + ks[i..j];
    MatchedAppend(ks[..i], ks[i..j], g);
    if j == i + 1 { assert ks[i..j] == [ks[i]] && Matched([ks[i]][1..], g) == 0; }
  }

  /** The entries up to n were met without an error. */
  ghost predicate Passed<T>(ks: seq<bytes>, limit: nat, countTotal: bool, g: bytes -> Visit<T>, n: int, count: nat) {
    && 0 <= n <= |ks| && count == Matched(ks[..n], g)
    && forall j :: 0 <= j < n ==> !FailsAt(ks, limit, countTotal, g, j)
  }

  lemma PassedStart<T>(ks: seq<bytes>, limit: nat, countTotal: bool, g: bytes -> Visit<T>)
    ensures Passed(ks, limit, countTotal, g, 0, 0)
  {
  }

  lemma PassedStep<T>(ks: seq<bytes>, limit: nat, countTotal: bool, g: bytes -> Visit<T>, n: nat, count: nat)
    requires Passed(ks, limit, countTotal, g, n, count) && n < |ks|
    ensures FailsAt(ks, limit, countTotal, g, n) <==>
              if count < limit then g(ks[n]).PredicateError? || g(ks[n]).TransformError?
                else countTotal && g(ks[n]).PredicateError?
    ensures !FailsAt(ks, limit, countTotal, g, n) ==>
              Passed(ks, limit, countTotal, g, n + 1, if g(ks[n]).Skip? then count else count + 1)
    ensures !countTotal && count >= limit ==> !Fails(ks, limit, countTotal, g)
  {
    hide Matched;
    MatchedUpTo(ks, n, n + 1, g);
    forall j | n <= j < |ks| ensures Matched(ks[..n], g) <= Matched(ks[..j], g) { MatchedUpTo(ks, n, j, g); }
  }

  lemma PassedAll<T>(ks: seq<bytes>, limit: nat, countTotal: bool, g: bytes -> Visit<T>, count: nat)
    requires Passed(ks, limit, countTotal, g, |ks|, count)
    ensures !Fails(ks, limit, countTotal, g)
  {
  }

  lemma CleanStep<T(!new)>(ks: seq<bytes>, n: nat, g: bytes -> Visit<T>)
    requires n < |ks|
    ensures Clean(ks[..n + 1], g) <==> Clean(ks[..n], g) && (g(ks[n]).Skip? || g(ks[n]).Emit?)
  {
    assert ks[..n + 1] == ks[..n] + [ks[n]];
  }

  /** collFilteredPaginateNoKey over the visited keys. */
  method PaginateNoKey<T(!new)>(ks: seq<bytes>, offset: u64, limit: u64, countTotal: bool, g: bytes -> Visit<T>)
    returns (r: Outcome<T>)
    ensures !r.Panicked? && (r.InvalidIterator? <==> offset > |ks|)
    ensures r.Failed? <==> offset <= |ks| && Fails(ks[offset..], limit, countTotal, g)
    ensures r.Done? && countTotal ==>
              && IsCountedPage(ks[offset..], limit, g, r.page.results, r.page.nextKey)
              && r.page.total == (Matched(ks[offset..], g) + offset) % U64_SIZE
    ensures r.Done? && (countTotal ==> Clean(ks[offset..], g)) ==>
              && IsFirstPage(ks[offset..], limit, countTotal, g, r.page.results, r.page.nextKey)
              && r.page.total == if countTotal then ReportedTotal(ks, offset, g) else 0
  {
    hide Take, Hits, Walked, IsFirstPage, IsCountedPage, Passed, Fails, FailsAt, Clean, Matched;
    var ok, i := AdvanceIter(ks, offset);
    if !ok { return InvalidIterator; }
    ghost var rest := ks[offset..];
    var count: nat, nextKey: bytes, results: seq<T> := 0, [], [];
    ghost var mark: int := -1;
    WalkStart(rest, limit, g);
    PassedStart(rest, limit, countTotal, g);
    NothingYet(rest, g);
    while i < |ks|
      invariant offset <= i <= |ks|
      invariant Passed(rest, limit, countTotal, g, i - offset, count)
      invariant Walked(rest, limit, g, i - offset, results, count, mark, nextKey)
      invariant !countTotal ==> mark == -1 && count <= limit && Clean(rest[..i - offset], g)
    {
      var key := ks[i];
      ghost var n := i - offset;
      assert rest[n] == key;
      PassedStep(rest, limit, countTotal, g, n, count);
      CleanStep(rest, n, g);
      if !FailsAt(rest, limit, countTotal, g, n) { WalkStep(rest, limit, g, n, results, count, mark, nextKey); }
      if count == limit && !countTotal { WalkStops(rest, limit, g, n, results, count, nextKey); }
      if count < limit {
        match g(key) {
          case PredicateError =>
            FailsHere(rest, limit, countTotal, g, n);
            return Failed;
          case TransformError =>
            FailsHere(rest, limit, countTotal, g, n);
            return Failed;
          case Emit(t) => results := results + [t]; count := count + 1;
          case Skip =>
        }
      } else {
        if count == limit {
          nextKey := key;
          if !countTotal { return Done(Page(results, nextKey, 0)); }
          mark := n;
        }
        match g(key) {
          case PredicateError =>
            FailsHere(rest, limit, countTotal, g, n);
            return Failed;
          case TransformError => count := count + 1;
          case Emit(_) => count := count + 1;
          case Skip =>
        }
      }
      i := i + 1;
    }
    assert rest[..i - offset] == rest;
    PassedAll(rest, limit, countTotal, g, count);
    WalkEnds(rest, limit, countTotal, g, results, count, mark, nextKey);
    r := Done(Page(results, nextKey, if countTotal then (count + offset) % U64_SIZE else 0));
  }

  lemma FailsHere<T>(ks: seq<bytes>, limit: nat, countTotal: bool, g: bytes -> Visit<T>, n: int)
    requires FailsAt(ks, limit, countTotal, g, n)
    ensures Fails(ks, limit, countTotal, g)
  {
  }

  lemma NothingYet<T(!new)>(ks: seq<bytes>, g: bytes -> Visit<T>)
    ensures Clean(ks[..0], g)
  {
  }

  /** The total a counting page by offset reports. */
  function ReportedTotal<T>(ks: seq<bytes>, offset: nat, g: bytes -> Visit<T>): u64
    requires offset <= |ks|
  {
    (|Hits(ks[offset..], g)| + offset) % U64_SIZE
  }

  /** As many entries as the limit were matched before this one. */
  ghost predicate CountsAt<T>(ks: seq<bytes>, limit: nat, g: bytes -> Visit<T>, j: int) {
    0 <= j < |ks| && Matched(ks[..j], g) == limit
  }

  /** A counting page by offset, also when transformations beyond it would fail: those entries count as matched. */
  ghost predicate IsCountedPage<T>(ks: seq<bytes>, limit: nat, g: bytes -> Visit<T>, results: seq<T>, next: bytes) {
    && results == Take(Hits(ks, g), limit)
    && if exists j :: CountsAt(ks, limit, g, j) then exists j :: LastCount(ks, limit, g, j) && next == ks[j]
       else next == []
  }

  ghost predicate LastCount<T>(ks: seq<bytes>, limit: nat, g: bytes -> Visit<T>, j: int) {
    CountsAt(ks, limit, g, j) && forall i :: CountsAt(ks, limit, g, i) ==> i <= j
  }

  /** The last entry before n at which the count was the limit. */
  ghost predicate MarkedUpTo<T>(ks: seq<bytes>, limit: nat, g: bytes -> Visit<T>, n: int, mark: int, next: bytes) {
    && -1 <= mark < n <= |ks| && (mark == -1 ==> next == [])
    && (mark >= 0 ==> CountsAt(ks, limit, g, mark) && next == ks[mark])
    && forall j :: mark < j < n ==> !CountsAt(ks, limit, g, j)
  }

  /** The loop's state after n entries, none of which failed. */
  ghost predicate Walked<T>(ks: seq<bytes>, limit: nat, g: bytes -> Visit<T>, n: int, results: seq<T>, count: nat,
                            mark: int, next: bytes) {
    && 0 <= n <= |ks| && results == Take(Hits(ks[..n], g), limit) && count == Matched(ks[..n], g)
    && (if count < limit then |Hits(ks[..n], g)| == count else |Hits(ks[..n], g)| >= limit)
    && (if n == 0 then mark == -1 && next == [] else MarkedUpTo(ks, limit, g, n, mark, next))
  }

  lemma WalkStart<T>(ks: seq<bytes>, limit: nat, g: bytes -> Visit<T>)
    ensures Walked(ks, limit, g, 0, [], 0, -1, [])
  {
  }

  lemma TakeSnoc<T>(h: seq<T>, limit: nat, x: seq<T>)
    requires |x| <= 1
    ensures Take(h + x, limit) == if |h| < limit then Take(h, limit) + x else Take(h, limit)
  {
  }

  lemma WalkStep<T>(ks: seq<bytes>, limit: nat, g: bytes -> Visit<T>, n: int, results: seq<T>, count: nat, mark: int,
                    next: bytes)
    requires Walked(ks, limit, g, n, results, count, mark, next) && n < |ks|
    requires count < limit ==> g(ks[n]).Skip? || g(ks[n]).Emit?
    ensures Walked(ks, limit, g, n + 1, if g(ks[n]).Emit? && count < limit then results + [g(ks[n]).t] else results,
                   if g(ks[n]).Skip? then count else count + 1,
                   if count == limit then n else mark, if count == limit then ks[n] else next)
  {
    hide Take, Hits, Matched;
    HitsSnoc(ks, n, g);
    MatchedUpTo(ks, n, n + 1, g);
    var x := if g(ks[n]).Emit? then [g(ks[n]).t] else [];
    TakeSnoc(Hits(ks[..n], g), limit, x);
    assert x == [] ==> results + x == results;
  }

  lemma HitsSplit<T>(ks: seq<bytes>, n: nat, g: bytes -> Visit<T>)
    requires n <= |ks|
    ensures Hits(ks, g) == Hits(ks[..n], g) + Hits(ks[n..], g)
  {
    assert ks == ks[..n] + ks[n..];
    HitsAppend(ks[..n], ks[n..], g);
  }

  lemma {:induction false} CleanMatches<T(!new)>(ks: seq<bytes>, g: bytes -> Visit<T>)
    requires Clean(ks, g)
    ensures Matched(ks, g) == |Hits(ks, g)|
  {
    if ks != [] {
      assert ks[0] in ks;
      CleanMatches(ks[1..], g);
    }
  }

  /** Among entries free of errors the count is the number of results. */
  lemma CountsAreEnds<T(!new)>(ks: seq<bytes>, limit: nat, g: bytes -> Visit<T>, n: nat, j: int)
    requires n <= |ks| && Clean(ks[..n], g) && j <= n
    ensures CountsAt(ks, limit, g, j) <==> PageEndsAt(ks, limit, g, j)
  {
    if 0 <= j < |ks| {
      assert ks[..n][..j] == ks[..j];
      assert forall k :: k in ks[..n][..j] ==> k in ks[..n];
      CleanMatches(ks[..j], g);
    }
  }

  lemma WalkStops<T(!new)>(ks: seq<bytes>, limit: nat, g: bytes -> Visit<T>, n: nat, results: seq<T>, count: nat,
                           next: bytes)
    requires Walked(ks, limit, g, n, results, count, -1, next) && n < |ks| && count == limit && Clean(ks[..n], g)
    ensures IsFirstPage(ks, limit, false, g, results, ks[n])
  {
    hide Hits, Matched, Clean;
    forall j | 0 <= j <= n ensures CountsAt(ks, limit, g, j) <==> PageEndsAt(ks, limit, g, j) {
      CountsAreEnds(ks, limit, g, n, j);
    }
    HitsSplit(ks, n, g);
    assert CountsAt(ks, limit, g, n);
    assert OutermostEnd(ks, limit, false, g, n);
  }

  lemma WalkEnds<T(!new)>(ks: seq<bytes>, limit: nat, countTotal: bool, g: bytes -> Visit<T>, results: seq<T>,
                          count: nat, mark: int, next: bytes)
    requires Walked(ks, limit, g, |ks|, results, count, mark, next) && (!countTotal ==> mark == -1)
    ensures count == Matched(ks, g) && IsCountedPage(ks, limit, g, results, next)
    ensures Clean(ks, g) ==> IsFirstPage(ks, limit, countTotal, g, results, next) && count == |Hits(ks, g)|
  {
    hide Hits, Matched, Clean;
    assert ks[..|ks|] == ks;
    if mark >= 0 { assert LastCount(ks, limit, g, mark); }
    if Clean(ks, g) {
      CleanMatches(ks, g);
      forall j ensures CountsAt(ks, limit, g, j) <==> PageEndsAt(ks, limit, g, j) {
        if j <= |ks| { CountsAreEnds(ks, limit, g, |ks|, j); }
      }
      if mark >= 0 { assert OutermostEnd(ks, limit, countTotal, g, mark); }
    }
  }

  /** collFilteredPaginateByKey over the visited keys. */
  method PaginateByKey<T(!new)>(ks: seq<bytes>, limit: u64, g: bytes -> Visit<T>) returns (r: Outcome<T>)
    ensures r == if Clean(Take(ks, limit), g) then Done(PageByKey(ks, limit, g)) else Failed
  {
    var count: nat, nextKey: bytes, results: seq<T> := 0, [], [];
    var i := 0;
    while i < |ks|
      invariant 0 <= i <= |ks| && count == i <= limit && nextKey == []
      invariant Clean(ks[..i], g) && results == Hits(ks[..i], g)
    {
      var key := ks[i];
      if count == limit {
        nextKey := key;
        break;
      }
      HitsSnoc(ks, i, g);
      assert ks[..i + 1] == ks[..i] + [key];
      assert key in Take(ks, limit) by { assert Take(ks, limit)[i] == key; }
      match g(key) {
        case PredicateError => return Failed;
        case TransformError => return Failed;
        case Emit(t) => results := results + [t];
        case Skip =>
      }
      count := count + 1;
      i := i + 1;
    }
    assert i == |ks| ==> ks[..i] == ks;
    r := Done(Page(results, nextKey, 0));
  }

  // ---------------------------------------------------------------- requests

  /** Next keys go out without the prefix. */
  function Strip(prefix: bytes, k: bytes): (r: bytes) { if |prefix| <= |k| then k[|prefix|..] else [] }

  /** Everything a scan visits starts with the prefix, so stripping it is safe. */
  lemma ScanHasPrefix(store: set<bytes>, prefix: bytes, start: bytes, reverse: bool, k: bytes)
    requires k in Scan(store, prefix, start, reverse)
    ensures prefix <= k && k in store
  {
    hide PrefixEnd;
    if reverse {
      InReversed(RangeKeys(store, prefix, PrefixEnd(prefix + start)), k);
      PrefixEndIsExact(prefix + start, k);
      if Less(k, prefix + start) {
        assert prefix + [] == prefix;
        SharedPrefix(prefix, k, start);
      } else {
        assert prefix + start <= k;
        assert prefix <= prefix + start;
      }
    } else {
      PrefixEndIsExact(prefix, k);
      LessExtension(prefix, start);
      assert start == [] ==> prefix + start == prefix;
      if Less(k, prefix) && start != [] { LessTransitive(k, prefix, prefix + start); }
    }
  }

  lemma InReversed<T>(s: seq<T>, x: T)
    ensures x in Reversed(s) <==> x in s
  {
    var r := Reversed(s);
    if x in s { var i :| 0 <= i < |s| && s[i] == x; assert r[|s| - 1 - i] == x; }
    if x in r { var i :| 0 <= i < |r| && r[i] == x; assert s[|s| - 1 - i] == x; }
  }

  /** Between a prefix and an extension of it, all keys start with the prefix. */
  lemma {:induction false} SharedPrefix(p: bytes, k: bytes, b: bytes)
    requires !Less(k, p) && Less(k, p + b)
    ensures p <= k
  {
    if p != [] {
      assert (p + b)[1..] == p[1..] + b;
      SharedPrefix(p[1..], k[1..], b);
      assert p == [p[0]] + p[1..] && k == [k[0]] + k[1..];
    }
  }

  /** CollectionFilteredPaginate. An exhausted offset gives an empty page; a callback's error leaves no response to
      strip the prefix from, which panics. */
  method Paginate<T(!new)>(store: set<bytes>, prefix: bytes, req: Request, g: bytes -> Visit<T>) returns (r: Outcome<T>)
    ensures var limit: u64, counts := if req.limit == 0 then 100 else req.limit, req.limit == 0 || req.countTotal;
            var ks := Scan(store, prefix, req.key, req.reverse);
            && !r.InvalidIterator? && (r.Failed? <==> req.offset > 0 && req.key != [])
            && (req.offset == 0 && req.key != [] ==>
                  r == if Clean(Take(ks, limit), g) then Done(NextPage(store, prefix, req.key, limit, req.reverse, g))
                       else Panicked)
            && (req.key == [] && req.offset > |ks| ==> r == Done(Page([], [], 0)))
            && (req.key == [] && req.offset <= |ks| ==>
                  && (r.Panicked? <==> Fails(ks[req.offset..], limit, counts, g))
                  && (r.Done? && counts ==>
                        r.page.total == (Matched(ks[req.offset..], g) + req.offset) % U64_SIZE
                        && exists next :: IsCountedPage(ks[req.offset..], limit, g, r.page.results, next)
                                          && r.page.nextKey == Strip(prefix, next))
                  && (r.Done? && (counts ==> Clean(ks[req.offset..], g)) ==>
                        && FirstPage(ks[req.offset..], prefix, limit, counts, g, r.page)
                        && r.page.total == if counts then ReportedTotal(ks, req.offset, g) else 0))
  {
    hide Scan, PageByKey, Clean, IsFirstPage, IsCountedPage, Fails, ReportedTotal;
    var q := WithDefaults(req);
    if q.offset > 0 && q.key != [] { return Failed; }
    var ks := Scan(store, prefix, q.key, q.reverse);
    if |q.key| != 0 {
      r := PaginateByKey(ks, q.limit, g);
    } else {
      r := PaginateNoKey(ks, q.offset, q.limit, q.countTotal, g);
    }
    if r.InvalidIterator? { return Done(Page([], [], 0)); }
    if r.Failed? { return Panicked; }
    ghost var next := r.page.nextKey;
    if |r.page.nextKey| != 0 {
      r := Done(r.page.(nextKey := Strip(prefix, r.page.nextKey)));
    }
    assert r.page.nextKey == Strip(prefix, next);
    if q.key == [] && q.countTotal { assert IsCountedPage(ks[q.offset..], q.limit, g, r.page.results, next); }
  }

  /** A page taken by offset, as the client sees it. */
  ghost predicate FirstPage<T>(ks: seq<bytes>, prefix: bytes, limit: nat, countTotal: bool, g: bytes -> Visit<T>,
                               page: Page<T>) {
    exists next :: IsFirstPage(ks, limit, countTotal, g, page.results, next) && page.nextKey == Strip(prefix, next)
  }

  /** The answer to a request by key, as the client sees it. */
  function NextPage<T>(store: set<bytes>, prefix: bytes, key: bytes, limit: nat, reverse: bool,
                       g: bytes -> Visit<T>): (p: Page<T>) {
    var p := PageByKey(Scan(store, prefix, key, reverse), limit, g);
    p.(nextKey := Strip(prefix, p.nextKey))
  }
}
