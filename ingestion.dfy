/** The bounded, paginated download of scripts/data_ingestion.py.

    The remote endpoint is a parameter: a function from the request (offset and
    limit) to what the HTTP call and the CSV parse produce.  Rows are opaque. */
module Ingestion {
  import opened Common

  /** One page request: the `$offset` and `$limit` query parameters. */
  datatype Request = Request(offset: int, limit: int)

  /** What one request yields: a parsed page (possibly empty), an HTTP error status,
      a body the CSV parser reports as empty, or any other exception. */
  datatype Response<R> = Rows(rows: seq<R>) | HttpError | EmptyData | Unexpected

  /** The requests issued, the pages accepted (in request order) and whether the
      pagination ended in an error. */
  datatype Trace<R> = Trace(requests: seq<Request>, chunks: seq<seq<R>>, failed: bool)

  function Stopped<R>(): Trace<R>
  {
    Trace([], [], false)
  }

  /** The pagination loop from the point where `total` rows have been accepted.
      Offset equals `total` throughout: it advances by the rows actually received. */
  function Paginate<R>(source: Request -> Response<R>, maxRows: int, chunkSize: int, total: int): Trace<R>
    decreases if total < maxRows then maxRows - total else 0
  {
    if total >= maxRows then Stopped()
    else
      var limit := Min(chunkSize, maxRows - total);
      if limit <= 0 then Stopped()
      else
        var req := Request(total, limit);
        match source(req)
        case HttpError => Trace([req], [], true)
        case Unexpected => Trace([req], [], true)
        case EmptyData => Trace([req], [], false)
        case Rows(rows) =>
          if |rows| == 0 then Trace([req], [], false)
          else if |rows| < limit then Trace([req], [rows], false)
          else
            var rest := Paginate(source, maxRows, chunkSize, total + |rows|);
            Trace([req] + rest.requests, [rows] + rest.chunks, rest.failed)
  }

  /** A page is only accepted while the budget is not yet reached, and it is never empty. */
  lemma PaginateBelowBudget<R>(source: Request -> Response<R>, maxRows: int, chunkSize: int, total: int)
    ensures var chunks := Paginate(source, maxRows, chunkSize, total).chunks;
      chunks != [] ==> total < maxRows && chunks[0] != []
  {
  }

  /** `head(max_rows)`: the first `n` rows, or all of them if there are fewer. */
  function Head<R>(s: seq<R>, n: nat): (r: seq<R>)
    ensures |r| == Min(|s|, n)
    ensures r == s[..|r|]
  {
    if |s| > n then s[..n] else s
  }

  /** The rows saved to the output file, or None when the function returns False. */
  function Download<R>(source: Request -> Response<R>, maxRows: int, chunkSize: int, saveSucceeds: bool): Option<seq<R>>
  {
    var t := Paginate(source, maxRows, chunkSize, 0);
    if t.failed || t.chunks == [] then None
    else
      PaginateBelowBudget(source, maxRows, chunkSize, 0);
      if saveSucceeds then Some(Head(Concat(t.chunks), maxRows)) else None
  }

  /** A turn of the loop that ends the pagination: an error, an empty page or a short page. */
  lemma PaginateLastStep<R>(source: Request -> Response<R>, maxRows: int, chunkSize: int, total: int,
                            req: Request, response: Response<R>)
    requires total < maxRows && 0 < Min(chunkSize, maxRows - total)
    requires req == Request(total, Min(chunkSize, maxRows - total)) && source(req) == response
    requires !response.Rows? || |response.rows| < req.limit
    ensures var t := Paginate(source, maxRows, chunkSize, total);
      && t.requests == [req]
      && t.chunks == (if response.Rows? && response.rows != [] then [response.rows] else [])
      && t.failed == (response.HttpError? || response.Unexpected?)
  {
  }

  /** A turn of the loop that accepts a full page and goes on from `total + |rows|`. */
  lemma PaginateNextStep<R>(source: Request -> Response<R>, maxRows: int, chunkSize: int, total: int,
                            req: Request, rows: seq<R>)
    requires total < maxRows && 0 < Min(chunkSize, maxRows - total)
    requires req == Request(total, Min(chunkSize, maxRows - total)) && source(req) == Rows(rows)
    requires req.limit <= |rows|
    ensures var t, next := Paginate(source, maxRows, chunkSize, total), Paginate(source, maxRows, chunkSize, total + |rows|);
      t.requests == [req] + next.requests && t.chunks == [rows] + next.chunks && t.failed == next.failed
  {
  }

  /** The pagination loop of the download: the requests it issues, the pages it
      accepts and whether it stopped on an error (where the function returns False). */
  method FetchPages<R>(source: Request -> Response<R>, maxRows: int, chunkSize: int)
    returns (requests: seq<Request>, chunks: seq<seq<R>>, failed: bool)
    ensures Trace(requests, chunks, failed) == Paginate(source, maxRows, chunkSize, 0)
  {
    ghost var spec := Paginate(source, maxRows, chunkSize, 0);
    chunks, requests, failed := [], [], false;
    var offset := 0;
    var total := 0;
    // the part of the specified trace still to come
    ghost var rest := spec;
    while total < maxRows
      invariant offset == total && 0 <= total
      invariant rest == Paginate(source, maxRows, chunkSize, total)
      invariant requests + rest.requests == spec.requests
      invariant chunks + rest.chunks == spec.chunks
      invariant rest.failed == spec.failed
      decreases maxRows - total
    {
      var remaining := maxRows - total;
      var limit := Min(chunkSize, remaining);
      if limit <= 0 {
        break;
      }
      var req := Request(offset, limit);
      var response := source(req);
      // the specified trace from the next turn on
      ghost var next := rest;
      if !response.Rows? || |response.rows| < limit {
        PaginateLastStep(source, maxRows, chunkSize, total, req, response);
      } else {
        PaginateNextStep(source, maxRows, chunkSize, total, req, response.rows);
        next := Paginate(source, maxRows, chunkSize, total + |response.rows|);
        MoveFirst(requests, rest.requests, spec.requests, req, next.requests);
        MoveFirst(chunks, rest.chunks, spec.chunks, response.rows, next.chunks);
      }
      requests := requests + [req];
      if response.HttpError? || response.Unexpected? {
        failed := true;
        return;
      }
      if response.EmptyData? || |response.rows| == 0 {
        break;
      }
      var rows := response.rows;
      chunks := chunks + [rows];
      total := total + |rows|;
      if |rows| < limit {
        break;
      }
      offset := offset + |rows|;
      rest := next;
    }
  }

  /** `download_data_from_socrata_limited`.  `ok` is its return value, `saved` what it
      writes to the output file (nothing when it fails), `requests` the HTTP requests
      it issues. */
  method DownloadLimited<R>(source: Request -> Response<R>, maxRows: int, chunkSize: int, saveSucceeds: bool)
    returns (ok: bool, saved: seq<R>, requests: seq<Request>)
    ensures requests == Paginate(source, maxRows, chunkSize, 0).requests
    ensures ok == Download(source, maxRows, chunkSize, saveSucceeds).Some?
    ensures saved == if ok then Download(source, maxRows, chunkSize, saveSucceeds).value else []
    ensures ok ==> 0 < |saved| <= maxRows
  {
    var chunks, failed;
    requests, chunks, failed := FetchPages(source, maxRows, chunkSize);
    if failed || chunks == [] {
      return false, [], requests;
    }
    var all := Concat(chunks);
    if |all| > maxRows {
      all := all[..maxRows];
    }
    if !saveSucceeds {
      return false, [], requests;
    }
    PaginateBelowBudget(source, maxRows, chunkSize, 0);
    ok, saved := true, all;
  }

  /** Every request of `t` asks for `min(chunk_size, max_rows - rows accepted so far)`
      rows, at the offset equal to the rows accepted so far (counting from `total`),
      and only when that is positive; each request but possibly the last accepted a page. */
  ghost predicate FollowsBudget<R>(t: Trace<R>, maxRows: int, chunkSize: int, total: int)
  {
    && |t.requests| - 1 <= |t.chunks| <= |t.requests|
    && forall i :: 0 <= i < |t.requests| ==>
         && t.requests[i].offset == total + |Concat(t.chunks[..i])|
         && t.requests[i].limit == Min(chunkSize, maxRows - t.requests[i].offset)
         && 0 < t.requests[i].limit
         && t.requests[i].offset < maxRows
  }

  lemma FollowsBudgetLast<R>(t: Trace<R>, maxRows: int, chunkSize: int, total: int)
    requires total < maxRows && 0 < Min(chunkSize, maxRows - total)
    requires t.requests == [Request(total, Min(chunkSize, maxRows - total))] && |t.chunks| <= 1
    ensures FollowsBudget(t, maxRows, chunkSize, total)
  {
    assert t.chunks[..0] == [];
  }

  lemma FollowsBudgetCons<R>(t: Trace<R>, rows: seq<R>, next: Trace<R>, maxRows: int, chunkSize: int, total: int)
    requires total < maxRows && 0 < Min(chunkSize, maxRows - total)
    requires FollowsBudget(next, maxRows, chunkSize, total + |rows|)
    requires t.requests == [Request(total, Min(chunkSize, maxRows - total))] + next.requests
    requires t.chunks == [rows] + next.chunks
    ensures FollowsBudget(t, maxRows, chunkSize, total)
  {
    forall i | 0 < i < |t.requests|
      ensures t.requests[i].offset == total + |Concat(t.chunks[..i])|
    {
      assert t.chunks[..i] == [rows] + next.chunks[..i - 1];
      assert t.requests[i] == next.requests[i - 1];
    }
    assert t.chunks[..0] == [];
  }

  lemma {:induction false} RequestsFollowBudget<R>(source: Request -> Response<R>, maxRows: int, chunkSize: int, total: int)
    ensures FollowsBudget(Paginate(source, maxRows, chunkSize, total), maxRows, chunkSize, total)
    decreases if total < maxRows then maxRows - total else 0
  {
    if total < maxRows && 0 < Min(chunkSize, maxRows - total) {
      var req := Request(total, Min(chunkSize, maxRows - total));
      var response := source(req);
      if response.Rows? && req.limit <= |response.rows| {
        PaginateNextStep(source, maxRows, chunkSize, total, req, response.rows);
        var next := Paginate(source, maxRows, chunkSize, total + |response.rows|);
        RequestsFollowBudget(source, maxRows, chunkSize, total + |response.rows|);
        FollowsBudgetCons(Paginate(source, maxRows, chunkSize, total), response.rows, next, maxRows, chunkSize, total);
      } else {
        PaginateLastStep(source, maxRows, chunkSize, total, req, response);
        FollowsBudgetLast(Paginate(source, maxRows, chunkSize, total), maxRows, chunkSize, total);
      }
    }
  }

  /** The pages of `t` are exactly the responses to its requests, in order; every
      request except the last received a full, non-empty page; and the trace failed
      exactly when the last request was answered by an error. */
  ghost predicate AnswersRequests<R>(source: Request -> Response<R>, t: Trace<R>)
  {
    && |t.requests| - 1 <= |t.chunks| <= |t.requests|
    && (forall i :: 0 <= i < |t.chunks| ==> source(t.requests[i]) == Rows(t.chunks[i]) && t.chunks[i] != [])
    && (forall i :: 0 <= i < |t.requests| - 1 ==>
          source(t.requests[i]).Rows? && t.requests[i].limit <= |source(t.requests[i]).rows|)
    && (t.failed <==> t.requests != [] && (source(t.requests[|t.requests| - 1]).HttpError? ||
                                          source(t.requests[|t.requests| - 1]).Unexpected?))
  }

  lemma AnswersRequestsCons<R>(source: Request -> Response<R>, t: Trace<R>, req: Request, rows: seq<R>, next: Trace<R>)
    requires source(req) == Rows(rows) && rows != [] && req.limit <= |rows|
    requires AnswersRequests(source, next) && (next.requests == [] ==> !next.failed)
    requires t.requests == [req] + next.requests && t.chunks == [rows] + next.chunks && t.failed == next.failed
    ensures AnswersRequests(source, t)
  {
    assert forall i :: 0 < i < |t.requests| ==> t.requests[i] == next.requests[i - 1];
    assert forall i :: 0 < i < |t.chunks| ==> t.chunks[i] == next.chunks[i - 1];
  }

  lemma AnswersRequestsLast<R>(source: Request -> Response<R>, t: Trace<R>, req: Request, response: Response<R>)
    requires source(req) == response && (!response.Rows? || |response.rows| < req.limit)
    requires t.requests == [req]
    requires t.chunks == (if response.Rows? && response.rows != [] then [response.rows] else [])
    requires t.failed == (response.HttpError? || response.Unexpected?)
    ensures AnswersRequests(source, t)
  {
  }

  /** Pagination stops after an empty page, a short page or an error, and makes no
      further request: the trace answers its requests in the sense above. */
  lemma {:induction false} PagesFollowRequests<R>(source: Request -> Response<R>, maxRows: int, chunkSize: int, total: int)
    ensures AnswersRequests(source, Paginate(source, maxRows, chunkSize, total))
    decreases if total < maxRows then maxRows - total else 0
  {
    if total < maxRows && 0 < Min(chunkSize, maxRows - total) {
      var req := Request(total, Min(chunkSize, maxRows - total));
      var response := source(req);
      if response.Rows? && req.limit <= |response.rows| {
        PaginateNextStep(source, maxRows, chunkSize, total, req, response.rows);
        var next := Paginate(source, maxRows, chunkSize, total + |response.rows|);
        PagesFollowRequests(source, maxRows, chunkSize, total + |response.rows|);
        PaginateEmptyNotFailed(source, maxRows, chunkSize, total + |response.rows|);
        AnswersRequestsCons(source, Paginate(source, maxRows, chunkSize, total), req, response.rows, next);
      } else {
        PaginateLastStep(source, maxRows, chunkSize, total, req, response);
        AnswersRequestsLast(source, Paginate(source, maxRows, chunkSize, total), req, response);
      }
    }
  }

  /** A trace that makes no request did not fail. */
  lemma PaginateEmptyNotFailed<R>(source: Request -> Response<R>, maxRows: int, chunkSize: int, total: int)
    ensures Paginate(source, maxRows, chunkSize, total).requests == [] ==> !Paginate(source, maxRows, chunkSize, total).failed
  {
  }

  /** An HTTP error or an unexpected exception on any request makes the whole download
      fail, even when pages were already accepted before it. */
  lemma ErrorDiscardsPages<R>(source: Request -> Response<R>, maxRows: int, chunkSize: int, saveSucceeds: bool, i: nat)
    requires var t := Paginate(source, maxRows, chunkSize, 0);
      i < |t.requests| && (source(t.requests[i]).HttpError? || source(t.requests[i]).Unexpected?)
    ensures Download(source, maxRows, chunkSize, saveSucceeds) == None
  {
    var t := Paginate(source, maxRows, chunkSize, 0);
    PagesFollowRequests(source, maxRows, chunkSize, 0);
    assert i == |t.requests| - 1;
  }

  /** The endpoint never returns more rows than the `$limit` it was asked for. */
  ghost predicate RespectsLimit<R>(source: Request -> Response<R>)
  {
    forall req: Request :: source(req).Rows? ==> |source(req).rows| <= req.limit
  }

  /** With an endpoint that respects the limit, the rows accepted never exceed the budget. */
  lemma {:induction false} BudgetKept<R>(source: Request -> Response<R>, maxRows: int, chunkSize: int, total: int)
    requires RespectsLimit(source) && total <= maxRows
    ensures total + |Concat(Paginate(source, maxRows, chunkSize, total).chunks)| <= maxRows
    decreases if total < maxRows then maxRows - total else 0
  {
    if total < maxRows && 0 < Min(chunkSize, maxRows - total) {
      var req := Request(total, Min(chunkSize, maxRows - total));
      var response := source(req);
      if response.Rows? && req.limit <= |response.rows| {
        PaginateNextStep(source, maxRows, chunkSize, total, req, response.rows);
        var next := Paginate(source, maxRows, chunkSize, total + |response.rows|);
        BudgetKept(source, maxRows, chunkSize, total + |response.rows|);
        ConcatCons(response.rows, next.chunks);
      } else {
        PaginateLastStep(source, maxRows, chunkSize, total, req, response);
        if response.Rows? && response.rows != [] {
          ConcatCons(response.rows, []);
        }
      }
    }
  }

  /** With such an endpoint no truncation is needed: the saved rows are the accepted
      pages joined in request order. */
  lemma SavedIsAllPages<R>(source: Request -> Response<R>, maxRows: int, chunkSize: int)
    requires RespectsLimit(source) && Download(source, maxRows, chunkSize, true).Some?
    ensures Download(source, maxRows, chunkSize, true).value == Concat(Paginate(source, maxRows, chunkSize, 0).chunks)
  {
    BudgetKept(source, maxRows, chunkSize, 0);
  }

  /** `rows[offset:offset+limit]` of a fixed dataset, as the remote endpoint serves it. */
  function Window<R>(data: seq<R>, offset: int, limit: int): seq<R>
  {
    if offset < 0 || limit <= 0 || |data| <= offset then []
    else data[offset..Min(offset + limit, |data|)]
  }

  /** The remote endpoint serving a fixed dataset, with no errors. */
  function Serve<R>(data: seq<R>): Request -> Response<R>
  {
    (req: Request) => Rows(Window(data, req.offset, req.limit))
  }

  /** A page shorter than the limit ends at the end of the data, within the budget. */
  lemma ShortWindowIsTail<R>(data: seq<R>, total: int, limit: int, maxRows: int)
    requires 0 <= total <= |data| && 0 < limit <= maxRows - total
    requires |Window(data, total, limit)| < limit
    ensures Window(data, total, limit) == data[total..Min(maxRows, |data|)]
  {
  }

  /** A full page is the first `limit` rows of what is left of the budget. */
  lemma FullWindowSplits<R>(data: seq<R>, total: int, limit: int, maxRows: int)
    requires 0 <= total && 0 < limit <= maxRows - total
    requires limit <= |Window(data, total, limit)|
    ensures |Window(data, total, limit)| == limit && total + limit <= |data|
    ensures var rows := Window(data, total, limit);
      data[total..Min(maxRows, |data|)] == rows + data[total + |rows|..Min(maxRows, |data|)]
  {
  }

  /** A full page followed by pages that join to `tail` joins to `rows + tail`. */
  lemma JoinPages<R>(t: Trace<R>, next: Trace<R>, rows: seq<R>, whole: seq<R>, tail: seq<R>)
    requires t.chunks == [rows] + next.chunks && t.failed == next.failed
    requires JoinsTo(next, tail) && whole == rows + tail
    ensures JoinsTo(t, whole)
  {
    ConcatCons(rows, next.chunks);
  }

  /** `source` answers every request with the matching window of `data`. */
  ghost predicate Serves<R>(source: Request -> Response<R>, data: seq<R>)
  {
    forall req: Request :: source(req) == Rows(Window(data, req.offset, req.limit))
  }

  lemma ServeServes<R>(data: seq<R>)
    ensures Serves(Serve(data), data)
  {
  }

  /** The pagination `t` ended without error and its pages join to `whole`. */
  ghost predicate JoinsTo<R>(t: Trace<R>, whole: seq<R>)
  {
    !t.failed && Concat(t.chunks) == whole
  }

  /** A short page from the dataset is its last page. */
  lemma ServeLastPage<R>(source: Request -> Response<R>, data: seq<R>, maxRows: int, chunkSize: int, total: nat)
    requires Serves(source, data)
    requires 0 < chunkSize && total < maxRows && total <= |data|
    requires |Window(data, total, Min(chunkSize, maxRows - total))| < Min(chunkSize, maxRows - total)
    ensures JoinsTo(Paginate(source, maxRows, chunkSize, total), data[total..Min(maxRows, |data|)])
  {
    var limit := Min(chunkSize, maxRows - total);
    var req, rows := Request(total, limit), Window(data, total, limit);
    assert source(req) == Rows(rows);
    PaginateLastStep(source, maxRows, chunkSize, total, req, Rows(rows));
    ShortWindowIsTail(data, total, limit, maxRows);
    if rows != [] {
      ConcatCons(rows, []);
    }
  }

  /** A full page from the dataset followed by the pages after it joins to the rows
      from `total` up to the budget or the end of the data. */
  lemma ServeNextPage<R>(source: Request -> Response<R>, data: seq<R>, maxRows: int, chunkSize: int, total: nat, rows: seq<R>)
    requires Serves(source, data)
    requires 0 < chunkSize && total < maxRows
    requires rows == Window(data, total, Min(chunkSize, maxRows - total)) && Min(chunkSize, maxRows - total) <= |rows|
    requires JoinsTo(Paginate(source, maxRows, chunkSize, total + |rows|), data[total + |rows|..Min(maxRows, |data|)])
    ensures JoinsTo(Paginate(source, maxRows, chunkSize, total), data[total..Min(maxRows, |data|)])
  {
    var limit := Min(chunkSize, maxRows - total);
    var req := Request(total, limit);
    assert source(req) == Rows(rows);
    PaginateNextStep(source, maxRows, chunkSize, total, req, rows);
    FullWindowSplits(data, total, limit, maxRows);
    JoinPages(Paginate(source, maxRows, chunkSize, total), Paginate(source, maxRows, chunkSize, total + |rows|), rows,
              data[total..Min(maxRows, |data|)], data[total + |rows|..Min(maxRows, |data|)]);
  }

  /** Against a dataset served in order, the pages accepted from `total` on are the
      rows from `total` up to the budget or the end of the data. */
  lemma {:induction false} ServePaginate<R>(source: Request -> Response<R>, data: seq<R>, maxRows: int, chunkSize: int, total: nat)
    requires Serves(source, data)
    requires 0 < chunkSize && total <= maxRows && total <= |data|
    ensures JoinsTo(Paginate(source, maxRows, chunkSize, total), data[total..Min(maxRows, |data|)])
    decreases maxRows - total
  {
    if total < maxRows {
      var limit := Min(chunkSize, maxRows - total);
      var rows := Window(data, total, limit);
      if |rows| < limit {
        ServeLastPage(source, data, maxRows, chunkSize, total);
      } else {
        FullWindowSplits(data, total, limit, maxRows);
        ServePaginate(source, data, maxRows, chunkSize, total + |rows|);
        ServeNextPage(source, data, maxRows, chunkSize, total, rows);
      }
    }
  }

  /** End to end: against a dataset served in order, the download saves the first
      `max_rows` rows (all of them if there are fewer), and fails exactly when there is
      nothing to save or the save fails. */
  lemma DownloadFromDataset<R>(data: seq<R>, maxRows: int, chunkSize: int, saveSucceeds: bool)
    requires 0 < chunkSize
    ensures Download(Serve(data), maxRows, chunkSize, saveSucceeds) ==
      if saveSucceeds && 0 < maxRows && data != [] then Some(data[..Min(maxRows, |data|)]) else None
  {
    if 0 < maxRows {
      ServeServes(data);
      ServePaginate(Serve(data), data, maxRows, chunkSize, 0);
      var t := Paginate(Serve(data), maxRows, chunkSize, 0);
      if data != [] {
        assert t.chunks != [];
      }
    }
  }

  /** Budget 120000, page size 50000, a dataset at least that long: three requests,
      for 50000, 50000 and 20000 rows. */
  lemma ThreeRequestsForFullPages<R>(data: seq<R>)
    requires |data| >= 120000
    ensures Paginate(Serve(data), 120000, 50000, 0).requests ==
      [Request(0, 50000), Request(50000, 50000), Request(100000, 20000)]
  {
    var source := Serve(data);
    assert source(Request(0, 50000)) == Rows(data[0..50000]);
    assert source(Request(50000, 50000)) == Rows(data[50000..100000]);
    assert source(Request(100000, 20000)) == Rows(data[100000..120000]);
    assert Paginate(source, 120000, 50000, 120000).requests == [];
    assert Paginate(source, 120000, 50000, 100000).requests == [Request(100000, 20000)];
    assert Paginate(source, 120000, 50000, 50000).requests == [Request(50000, 50000), Request(100000, 20000)];
  }

  /** Same budget and page size, but only 80000 rows available: the second page holds
      30000 rows, so pagination stops after two requests with 80000 rows saved. */
  lemma TwoRequestsWhenSecondPageShort<R>(data: seq<R>)
    requires |data| == 80000
    ensures Paginate(Serve(data), 120000, 50000, 0).requests == [Request(0, 50000), Request(50000, 50000)]
    ensures Download(Serve(data), 120000, 50000, true) == Some(data)
  {
    var source := Serve(data);
    assert source(Request(0, 50000)) == Rows(data[0..50000]);
    assert source(Request(50000, 50000)) == Rows(data[50000..80000]);
    assert Paginate(source, 120000, 50000, 50000).requests == [Request(50000, 50000)];
    DownloadFromDataset(data, 120000, 50000, true);
    assert data[..80000] == data;
  }
}
