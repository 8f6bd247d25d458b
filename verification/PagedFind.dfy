/** The token-based paged search of the device client (`runAccessFind`, src/infra/dahua/dahua-client.ts),
    against the plain slice the mock device serves (`list`, src/infra/mock/person-store.ts). */
module PagedFind {
  import opened Common

  datatype Request = StartFind | DoFind(token: int, offset: int, count: int) | StopFind(token: int)

  /** Numbers read from the reply to `startFind`; each may be missing. */
  datatype StartReply = StartReply(token: Option<int>, total: Option<int>, caps: Option<int>)

  /** Reply to the n-th `doFind`, for an offset and a count; None is a failed request. */
  type Finder<T> = (nat, int, int) -> Option<seq<T>>

  // ---------------------------------------------------------------- the search as a function

  datatype Fetched<T> = Fetched(rows: seq<T>, requests: seq<Request>, ok: bool)

  function Fetch<T>(find: Finder<T>, token: int, offset: int, end: int, batch: int, call: nat): Fetched<T>
    requires batch >= 1
    decreases end - offset
  {
    if offset >= end then Fetched([], [], true)
    else
      var count := Min(batch, end - offset);
      var ask := DoFind(token, offset, count);
      match find(call, offset, count)
      case None => Fetched([], [ask], false)
      case Some(info) =>
        if |info| < count then Fetched(info, [ask], true)
        else
          var rest := Fetch(find, token, offset + |info|, end, batch, call + 1);
          Fetched(info + rest.rows, [ask] + rest.requests, rest.ok)
  }

  function Entered(start: StartReply, limit: int): bool {
    start.token.Some? && start.total.Some? && start.total.value > 0 && limit > 0
  }

  function From(offset: int): int { Max(0, offset) }

  function Wanted(start: StartReply, limit: int, offset: int): int
    requires Entered(start, limit)
  {
    Max(0, Min(start.total.value - From(offset), limit))
  }

  function Batch(start: StartReply, limit: int, offset: int): int
    requires Entered(start, limit)
  {
    Max(1, Min(if start.caps.Some? then start.caps.value else limit, Wanted(start, limit, offset)))
  }

  /** The loop's part of a search that is entered. */
  function Search<T>(start: StartReply, find: Finder<T>, limit: int, offset: int): Fetched<T>
    requires Entered(start, limit)
  {
    var from := From(offset);
    Fetch(find, start.token.value, from, from + Wanted(start, limit, offset), Batch(start, limit, offset), 0)
  }

  // ---------------------------------------------------------------- the search as written

  method RunAccessFind<T>(start: Option<StartReply>, find: Finder<T>, limit: int, offset: int)
    returns (r: Option<seq<T>>, log: seq<Request>)
    ensures start.None? ==> r == None && log == [StartFind]
    ensures start.Some? && !Entered(start.value, limit) ==> r == Some([]) && log == [StartFind]
    ensures start.Some? && Entered(start.value, limit) ==>
              var f := Search(start.value, find, limit, offset);
              && log == [StartFind] + f.requests + [StopFind(start.value.token.value)]
              && r == if f.ok then Some(Take(f.rows, limit)) else None
  {
    log := [StartFind];
    if start.None? {
      return None, log;
    }
    var token, total := start.value.token, if start.value.total.Some? then start.value.total.value else 0;
    var caps := if start.value.caps.Some? then start.value.caps.value else limit;
    if token.None? || total <= 0 || limit <= 0 {
      return Some([]), log;
    }
    var startOffset := Max(0, offset);
    var maxToFetch := Max(0, Min(total - startOffset, limit));
    var batchSize := Max(1, Min(caps, maxToFetch));
    var out, asked, ok := FetchPages(find, token.value, startOffset, startOffset + maxToFetch, batchSize);
    log := log + asked + [StopFind(token.value)];
    r := if ok then Some(Take(out, limit)) else None;
  }

  /** The `while` loop between start and stop. */
  method FetchPages<T>(find: Finder<T>, token: int, start: int, end: int, batch: int)
    returns (out: seq<T>, asked: seq<Request>, ok: bool)
    requires batch >= 1
    ensures Fetched(out, asked, ok) == Fetch(find, token, start, end, batch, 0)
  {
    out, asked, ok := [], [], true;
    var offset, call := start, 0;
    ghost var whole := Fetch(find, token, start, end, batch, 0);
    while offset < end
      invariant ok && Ahead(whole, out, asked, Fetch(find, token, offset, end, batch, call))
      decreases end - offset
    {
      var count := Min(batch, end - offset);
      NextPage(whole, out, asked, find, token, offset, end, batch, call);
      asked := asked + [DoFind(token, offset, count)];
      var info := find(call, offset, count);
      if info.None? {
        return out, asked, false;
      }
      if |info.value| == 0 {
        assert out + info.value == out;
        return;
      }
      out := out + info.value;
      if |info.value| < count {
        return;
      }
      offset, call := offset + |info.value|, call + 1;
    }
    NothingAhead(whole, out, asked, Fetch(find, token, offset, end, batch, call));
  }

  lemma NothingAhead<T>(whole: Fetched<T>, out: seq<T>, asked: seq<Request>, rest: Fetched<T>)
    requires Ahead(whole, out, asked, rest) && rest == Fetched([], [], true)
    ensures whole == Fetched(out, asked, true)
  {
    assert out + [] == out && asked + [] == asked;
  }

  /** What was fetched so far, followed by what is still ahead, is the whole search. */
  ghost predicate Ahead<T>(whole: Fetched<T>, out: seq<T>, asked: seq<Request>, rest: Fetched<T>) {
    whole == Fetched(out + rest.rows, asked + rest.requests, rest.ok)
  }

  lemma NextPage<T>(whole: Fetched<T>, out: seq<T>, asked: seq<Request>, find: Finder<T>, token: int, cur: int,
                    end: int, batch: int, call: nat)
    requires batch >= 1 && cur < end && Ahead(whole, out, asked, Fetch(find, token, cur, end, batch, call))
    ensures var count := Min(batch, end - cur);
            var asked' := asked + [DoFind(token, cur, count)];
            match find(call, cur, count)
            case None => whole == Fetched(out, asked', false)
            case Some(info) =>
              if |info| < count then whole == Fetched(out + info, asked', true)
              else Ahead(whole, out + info, asked', Fetch(find, token, cur + |info|, end, batch, call + 1))
  {
    var count := Min(batch, end - cur);
    var ask := DoFind(token, cur, count);
    match find(call, cur, count)
    case None => assert out + [] == out;
    case Some(info) =>
      if |info| >= count {
        var rest := Fetch(find, token, cur + |info|, end, batch, call + 1);
        assert out + (info + rest.rows) == out + info + rest.rows;
        assert asked + ([ask] + rest.requests) == asked + [ask] + rest.requests;
      }
  }

  // ---------------------------------------------------------------- on any device

  /** Everything sent to the device. */
  function Log<T>(start: StartReply, find: Finder<T>, limit: int, offset: int): seq<Request> {
    if !Entered(start, limit) then [StartFind]
    else [StartFind] + Search(start, find, limit, offset).requests + [StopFind(start.token.value)]
  }

  /** Pages lie in the range asked for and do not overlap, whatever the device answers, so there are at
      most as many as places in the range. */
  ghost predicate PagesApart(requests: seq<Request>, token: int, offset: int, end: int, batch: int) {
    && (forall i :: 0 <= i < |requests| ==>
          && requests[i].DoFind? && requests[i].token == token
          && offset <= requests[i].offset && requests[i].offset + requests[i].count <= end
          && 1 <= requests[i].count <= batch)
    && forall i, j :: 0 <= i < j < |requests| ==> requests[i].offset + requests[i].count <= requests[j].offset
  }

  lemma {:induction false} PagesNeverOverlap<T>(find: Finder<T>, token: int, offset: int, end: int, batch: int,
                                                call: nat)
    requires batch >= 1
    ensures PagesApart(Fetch(find, token, offset, end, batch, call).requests, token, offset, end, batch)
    ensures |Fetch(find, token, offset, end, batch, call).requests| <= Max(0, end - offset)
    decreases end - offset
  {
    if offset < end {
      var count := Min(batch, end - offset);
      var answer := find(call, offset, count);
      if answer.Some? && |answer.value| >= count {
        PagesNeverOverlap(find, token, offset + |answer.value|, end, batch, call + 1);
      }
    }
  }

  function Occurrences(log: seq<Request>, r: Request): nat { multiset(log)[r] }

  /** A search that hands out a token is stopped exactly once when it reports rows and rows are wanted, and
      otherwise never: the early return skips the stop. */
  lemma StoppedOnceOrNever<T>(start: StartReply, find: Finder<T>, limit: int, offset: int)
    requires start.token.Some?
    ensures Occurrences(Log(start, find, limit, offset), StopFind(start.token.value)) ==
            if start.total.Some? && start.total.value > 0 && limit > 0 then 1 else 0
    ensures Entered(start, limit) ==>
              Log(start, find, limit, offset)[|Log(start, find, limit, offset)| - 1] == StopFind(start.token.value)
  {
    if Entered(start, limit) {
      var pages := Search(start, find, limit, offset).requests;
      var from, wanted, batch := From(offset), Wanted(start, limit, offset), Batch(start, limit, offset);
      PagesNeverOverlap(find, start.token.value, from, from + wanted, batch, 0);
      assert StopFind(start.token.value) !in pages;
      assert StopFind(start.token.value) !in multiset(pages);
    }
  }

  // ---------------------------------------------------------------- on a device serving a fixed list

  /** `slice(from, from + count)` for bounds that are not negative. */
  function Slice<T>(all: seq<T>, from: nat, count: nat): seq<T> {
    if from >= |all| then [] else Take(all[from..], count)
  }

  /** `list` of the mock device. */
  function MockList<T>(all: seq<T>, offset: int, limit: int): seq<T> { Slice(all, Max(0, offset), Max(0, limit)) }

  /** The device serves the list, at least to requests for no more than `most` rows. */
  ghost predicate ServesUpTo<T(!new)>(find: Finder<T>, all: seq<T>, most: int) {
    forall call: nat, offset: nat, count: nat :: count <= most ==>
      find(call, offset, count) == Some(Slice(all, offset, count))
  }

  /** The device never answers with more rows than its caps, when these are positive. */
  ghost predicate ServesCapped<T(!new)>(find: Finder<T>, all: seq<T>, caps: Option<int>) {
    forall call: nat, offset: nat, count: nat ::
      find(call, offset, count) ==
      Some(Slice(all, offset, if caps.Some? && caps.value > 0 then Min(count, caps.value) else count))
  }

  /** Full pages one after the other, the last one cut to fit. */
  function Tiles(token: int, offset: int, end: int, batch: int): seq<Request>
    requires batch >= 1
    decreases end - offset
  {
    if offset >= end then []
    else [DoFind(token, offset, Min(batch, end - offset))] + Tiles(token, offset + batch, end, batch)
  }

  /** `n` pages of a size are the fewest that cover `wanted` rows. */
  predicate FewestPages(n: int, wanted: int, batch: int) {
    if wanted <= 0 then n == 0 else (n - 1) * batch < wanted <= n * batch
  }

  lemma {:induction false} TileCount(token: int, offset: int, end: int, batch: int)
    requires batch >= 1
    ensures FewestPages(|Tiles(token, offset, end, batch)|, end - offset, batch)
    decreases end - offset
  {
    if offset < end {
      TileCount(token, offset + batch, end, batch);
      var n := |Tiles(token, offset + batch, end, batch)|;
      assert (n + 1) * batch == n * batch + batch;
      assert n * batch == (n - 1) * batch + batch;
    }
  }

  lemma SliceInside<T>(all: seq<T>, offset: nat, count: nat)
    requires offset + count <= |all|
    ensures Slice(all, offset, count) == all[offset..offset + count]
  {}

  lemma ServedPage<T(!new)>(find: Finder<T>, all: seq<T>, most: int, call: nat, offset: nat, count: nat)
    requires ServesUpTo(find, all, most) && count <= most && offset + count <= |all|
    ensures find(call, offset, count) == Some(all[offset..offset + count])
  {
    SliceInside(all, offset, count);
  }

  lemma {:induction false} ServedPages<T(!new)>(find: Finder<T>, all: seq<T>, token: int, offset: nat, end: nat,
                                                batch: int, call: nat)
    requires batch >= 1 && ServesUpTo(find, all, batch) && end <= |all|
    ensures Fetch(find, token, offset, end, batch, call) ==
            Fetched(if offset <= end then all[offset..end] else [], Tiles(token, offset, end, batch), true)
    decreases end - offset
  {
    if offset < end {
      var count := Min(batch, end - offset);
      ServedPage(find, all, batch, call, offset, count);
      ServedPages(find, all, token, offset + count, end, batch, call + 1);
      OnePageMore(find, all, token, offset, end, batch, call);
    }
  }

  lemma OnePageMore<T>(find: Finder<T>, all: seq<T>, token: int, offset: nat, end: nat, batch: int, call: nat)
    requires batch >= 1 && offset < end <= |all|
    requires var next := offset + Min(batch, end - offset);
             && find(call, offset, next - offset) == Some(all[offset..next])
             && Fetch(find, token, next, end, batch, call + 1) ==
                Fetched(all[next..end], Tiles(token, next, end, batch), true)
    ensures Fetch(find, token, offset, end, batch, call) ==
            Fetched(all[offset..end], Tiles(token, offset, end, batch), true)
  {
    var next := offset + Min(batch, end - offset);
    FullPage(find, token, offset, end, batch, call, all[offset..next]);
    OneTileMore(all, token, offset, end, batch, Fetch(find, token, next, end, batch, call + 1));
  }

  /** A page in front of the tiled rest. */
  lemma OneTileMore<T>(all: seq<T>, token: int, offset: nat, end: nat, batch: int, rest: Fetched<T>)
    requires batch >= 1 && offset < end <= |all|
    requires var next := offset + Min(batch, end - offset);
             rest == Fetched(all[next..end], Tiles(token, next, end, batch), true)
    ensures var count := Min(batch, end - offset);
            Fetched(all[offset..offset + count] + rest.rows, [DoFind(token, offset, count)] + rest.requests, rest.ok) ==
            Fetched(all[offset..end], Tiles(token, offset, end, batch), true)
  {
    TwoSlices(all, offset, offset + Min(batch, end - offset), end);
    LastTile(token, offset, end, batch);
  }

  lemma FullPage<T>(find: Finder<T>, token: int, offset: int, end: int, batch: int, call: nat, info: seq<T>)
    requires batch >= 1 && offset < end && |info| == Min(batch, end - offset)
    requires find(call, offset, Min(batch, end - offset)) == Some(info)
    ensures Fetch(find, token, offset, end, batch, call) ==
            var rest := Fetch(find, token, offset + |info|, end, batch, call + 1);
            Fetched(info + rest.rows, [DoFind(token, offset, Min(batch, end - offset))] + rest.requests, rest.ok)
  {}

  lemma TwoSlices<T>(all: seq<T>, a: nat, b: nat, c: nat)
    requires a <= b <= c <= |all|
    ensures all[a..c] == all[a..b] + all[b..c]
  {}

  lemma LastTile(token: int, offset: nat, end: nat, batch: int)
    requires batch >= 1 && offset < end
    ensures Tiles(token, offset + Min(batch, end - offset), end, batch) == Tiles(token, offset + batch, end, batch)
  {}

  lemma WantedIsMock<T>(all: seq<T>, limit: int, offset: int, from: nat, wanted: nat)
    requires limit > 0 && from == From(offset) && wanted == Max(0, Min(|all| - from, limit))
    ensures wanted == 0 ==> MockList(all, offset, limit) == []
    ensures wanted > 0 ==> from + wanted <= |all| && all[from..from + wanted] == MockList(all, offset, limit)
  {}

  /** What is fetched for a range of the list, and with how many pages. */
  lemma RangeIsFetched<T(!new)>(find: Finder<T>, all: seq<T>, token: int, from: nat, wanted: nat, batch: int)
    requires ServesUpTo(find, all, batch) && batch >= 1 && (wanted > 0 ==> from + wanted <= |all|)
    ensures var f := Fetch(find, token, from, from + wanted, batch, 0);
            && f.ok && f.rows == (if wanted == 0 then [] else all[from..from + wanted])
            && f.requests == Tiles(token, from, from + wanted, batch) && FewestPages(|f.requests|, wanted, batch)
  {
    if wanted > 0 {
      ServedPages(find, all, token, from, from + wanted, batch, 0);
    }
    TileCount(token, from, from + wanted, batch);
  }

  /** How many rows there are to fetch, and how many a page may hold. */
  lemma SizesSpelledOut(start: StartReply, limit: int, offset: int)
    requires start.token.Some? && start.total.Some? && start.total.value > 0 && limit > 0
    ensures Entered(start, limit) && From(offset) == (if offset > 0 then offset else 0)
    ensures Wanted(start, limit, offset) == Max(0, Min(start.total.value - Max(0, offset), limit))
    ensures var size := Batch(start, limit, offset);
            && 1 <= size <= limit && (start.caps.Some? && start.caps.value > 0 ==> size <= start.caps.value)
            && size == Max(1, Min(if start.caps.Some? then start.caps.value else limit,
                                  Max(0, Min(start.total.value - Max(0, offset), limit))))
  {}

  lemma OnlyPages(token: int, pages: seq<Request>, r: Request)
    requires r in [StartFind] + pages + [StopFind(token)] && r.DoFind?
    ensures r in pages
  {}

  lemma PageInRange(pages: seq<Request>, token: int, offset: int, end: int, batch: int, r: Request)
    requires PagesApart(pages, token, offset, end, batch) && r in pages
    ensures r.DoFind? && r.token == token && offset <= r.offset && r.offset + r.count <= end && 1 <= r.count <= batch
  {}

  lemma AskedInRange<T>(find: Finder<T>, token: int, from: int, end: int, batch: int, r: Request)
    requires batch >= 1 && r.DoFind?
    requires r in [StartFind] + Fetch(find, token, from, end, batch, 0).requests + [StopFind(token)]
    ensures r.token == token && from <= r.offset && r.offset + r.count <= end && 1 <= r.count <= batch
  {
    var pages := Fetch(find, token, from, end, batch, 0).requests;
    OnlyPages(token, pages, r);
    PagesNeverOverlap(find, token, from, end, batch, 0);
    PageInRange(pages, token, from, end, batch, r);
  }

  /** Whatever the device answers, no request asks for more rows than its caps allow or the caller wants. */
  lemma CapsAreKept<T>(start: StartReply, find: Finder<T>, limit: int, offset: int)
    ensures forall r :: r in Log(start, find, limit, offset) && r.DoFind? ==>
              && 1 <= r.count <= limit && (start.caps.Some? && start.caps.value > 0 ==> r.count <= start.caps.value)
              && start.token == Some(r.token) && r.offset >= Max(0, offset)
              && start.total.Some? && r.offset + r.count <= Min(start.total.value, Max(0, offset) + limit)
  {
    forall r | r in Log(start, find, limit, offset) && r.DoFind?
      ensures && 1 <= r.count <= limit && (start.caps.Some? && start.caps.value > 0 ==> r.count <= start.caps.value)
              && start.token == Some(r.token) && r.offset >= Max(0, offset)
              && start.total.Some? && r.offset + r.count <= Min(start.total.value, Max(0, offset) + limit)
    {
      assert Entered(start, limit);
      var from, wanted, batch := From(offset), Wanted(start, limit, offset), Batch(start, limit, offset);
      AskedInRange(find, start.token.value, from, from + wanted, batch, r);
      SizesSpelledOut(start, limit, offset);
    }
  }

  /** Main result, for a device that serves a list up to its caps or beyond, and any offset and limit: the search
      returns what the mock's plain slice returns. It asks for the range of the list from the offset on, up to the
      limit, in pages of the device's caps or else of the limit, in as few of them as cover the range. */
  lemma SearchIsSlice<T(!new)>(start: StartReply, find: Finder<T>, all: seq<T>, limit: int, offset: int)
    requires start.token.Some? && start.total == Some(|all|)
    requires ServesUpTo(find, all, if start.caps.Some? && start.caps.value > 0 then start.caps.value else limit)
    ensures all == [] || limit <= 0 ==>
              MockList(all, offset, limit) == [] && Log(start, find, limit, offset) == [StartFind]
    ensures all != [] && limit > 0 ==>
              var first, rows := Max(0, offset), Max(0, Min(|all| - Max(0, offset), limit));
              var size := Max(1, Min(if start.caps.Some? then start.caps.value else limit, rows));
              && Entered(start, limit)
              && var f := Search(start, find, limit, offset);
                 && f.ok && Take(f.rows, limit) == MockList(all, offset, limit)
                 && f.requests == Tiles(start.token.value, first, first + rows, size)
                 && FewestPages(|f.requests|, rows, size)
  {
    if all != [] && limit > 0 {
      SizesSpelledOut(start, limit, offset);
      var from, wanted, batch := From(offset), Wanted(start, limit, offset), Batch(start, limit, offset);
      WantedIsMock(all, limit, offset, from, wanted);
      RangeIsFetched(find, all, start.token.value, from, wanted, batch);
    }
  }

  /** So it does on a device that cuts every page at its caps: no row is lost. */
  lemma CappedSearchIsSlice<T(!new)>(start: StartReply, find: Finder<T>, all: seq<T>, limit: int, offset: int)
    requires start.token.Some? && start.total == Some(|all|) && ServesCapped(find, all, start.caps)
    requires all != [] && limit > 0
    ensures Entered(start, limit)
    ensures var f := Search(start, find, limit, offset); f.ok && Take(f.rows, limit) == MockList(all, offset, limit)
  {
    SearchIsSlice(start, find, all, limit, offset);
  }
}
