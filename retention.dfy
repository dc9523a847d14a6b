/** The retention sweep: list the backups under the bucket prefix page by
    page, collect the keys of objects last modified before the cutoff, and
    delete them in batches. Listing and deleting are calls to object
    storage; their responses are inputs (`pages`, `deleteResponses`) and
    the calls made come back as a trace of requests. */
module Retention {
  import opened Common

  /** The accumulated keys are flushed once there are at least this many. */
  const DeleteThreshold: nat := 1000

  /** One entry of a listing page: `Key` and `LastModified` may be absent.
      Timestamps are milliseconds since the epoch. */
  datatype StoredObject = StoredObject(key: Option<string>, lastModified: Option<int>)

  /** The response to one list request. An absent `Contents` is the empty
      sequence and an absent `IsTruncated` is false; a rejected call is
      `ListFailed`. */
  datatype ListResponse =
    | Page(contents: seq<StoredObject>, isTruncated: bool, nextToken: Option<string>)
    | ListFailed

  /** The calls the sweep makes to object storage. */
  datatype Request =
    | ListObjects(prefix: string, token: Option<string>)
    | DeleteObjects(keys: seq<string>)

  /** The response to one delete call: the per-object errors it reports, or
      a rejected call. */
  datatype DeleteResponse = DeleteResult(deleted: nat, errors: seq<string>) | DeleteThrew

  /** The listing prefix: the subfolder and a slash, or nothing. */
  function ListPrefix(subfolder: string): (p: string)
    ensures subfolder == "" ==> p == ""
    ensures subfolder != "" ==> p == subfolder + "/"
  {
    if subfolder != "" then subfolder + "/" else ""
  }

  /** An object qualifies when its timestamp is present and strictly before
      the cutoff and its key is a non-empty string. A cutoff of `None` is an
      invalid date: every comparison with it is false, so nothing qualifies. */
  predicate Expired(o: StoredObject, cutoff: Option<int>)
    ensures cutoff.None? ==> !Expired(o, cutoff)
    ensures o.lastModified.None? ==> !Expired(o, cutoff)
    ensures Expired(o, cutoff) ==> o.key.Some? && |o.key.value| > 0
  {
    && cutoff.Some?
    && o.lastModified.Some? && o.lastModified.value < cutoff.value
    && o.key.Some? && o.key.value != ""
  }

  /** The keys of the qualifying objects of one page, in page order. */
  function ExpiredKeys(objects: seq<StoredObject>, cutoff: Option<int>): (keys: seq<string>)
    ensures |keys| <= |objects|
    ensures cutoff.None? ==> keys == []
  {
    if objects == [] then []
    else (if Expired(objects[0], cutoff) then [objects[0].key.value] else [])
         + ExpiredKeys(objects[1..], cutoff)
  }

  lemma {:induction false} ExpiredKeysSound(objects: seq<StoredObject>, cutoff: Option<int>, k: string)
    requires k in ExpiredKeys(objects, cutoff)
    ensures exists o :: o in objects && Expired(o, cutoff) && o.key == Some(k)
  {
    if Expired(objects[0], cutoff) && k == objects[0].key.value {
      assert objects[0] in objects;
    } else {
      ExpiredKeysSound(objects[1..], cutoff, k);
      var o :| o in objects[1..] && Expired(o, cutoff) && o.key == Some(k);
      assert o in objects;
    }
  }

  lemma {:induction false} ExpiredKeysComplete(objects: seq<StoredObject>, cutoff: Option<int>, o: StoredObject)
    requires o in objects && Expired(o, cutoff)
    ensures o.key.value in ExpiredKeys(objects, cutoff)
  {
    if objects[0] != o {
      ExpiredKeysComplete(objects[1..], cutoff, o);
    }
  }

  // ----- where the listing ends -----

  /** A response after which no further list request is made. */
  predicate Stops(r: ListResponse)
  {
    r.ListFailed? || !r.isTruncated
  }

  /** Some response of `pages` stops the listing. */
  predicate EndsListing(pages: seq<ListResponse>)
    decreases |pages|
  {
    |pages| > 0 && (Stops(pages[0]) || EndsListing(pages[1..]))
  }

  /** The index of the first response that stops the listing. */
  function FirstStop(pages: seq<ListResponse>): (n: nat)
    requires EndsListing(pages)
    ensures n < |pages| && Stops(pages[n])
    ensures forall k :: 0 <= k < n ==> !Stops(pages[k])
    decreases |pages|
  {
    if Stops(pages[0]) then 0 else 1 + FirstStop(pages[1..])
  }

  /** The responses the sweep reads: all of them up to the first stop. */
  function Consumed(pages: seq<ListResponse>): seq<ListResponse>
    requires EndsListing(pages)
    decreases |pages|
  {
    if Stops(pages[0]) then [pages[0]] else [pages[0]] + Consumed(pages[1..])
  }

  lemma {:induction false} ConsumedIsPrefix(pages: seq<ListResponse>)
    requires EndsListing(pages)
    ensures Consumed(pages) == pages[..FirstStop(pages) + 1]
    decreases |pages|
  {
    if !Stops(pages[0]) {
      ConsumedIsPrefix(pages[1..]);
      assert pages[..FirstStop(pages) + 1] == [pages[0]] + pages[1..][..FirstStop(pages[1..]) + 1];
    }
  }

  /** The listing ended with a failed list call. */
  predicate ListingFailed(pages: seq<ListResponse>)
    requires EndsListing(pages)
  {
    pages[FirstStop(pages)].ListFailed?
  }

  function PageKeys(r: ListResponse, cutoff: Option<int>): seq<string>
  {
    if r.Page? then ExpiredKeys(r.contents, cutoff) else []
  }

  /** The qualifying keys of a sequence of responses, page after page. */
  function ExpiredOf(rs: seq<ListResponse>, cutoff: Option<int>): seq<string>
  {
    if rs == [] then [] else PageKeys(rs[0], cutoff) + ExpiredOf(rs[1..], cutoff)
  }

  /** The largest number of qualifying keys on one page. */
  function MaxPageKeys(rs: seq<ListResponse>, cutoff: Option<int>): (m: nat)
    ensures forall k :: 0 <= k < |rs| ==> |PageKeys(rs[k], cutoff)| <= m
    ensures rs == [] ==> m == 0
    ensures rs != [] ==> exists k :: 0 <= k < |rs| && |PageKeys(rs[k], cutoff)| == m
  {
    if rs == [] then 0
    else
      var rest := MaxPageKeys(rs[1..], cutoff);
      var here := |PageKeys(rs[0], cutoff)|;
      assert forall k :: 1 <= k < |rs| ==> rs[k] == rs[1..][k - 1];
      if here < rest then
        assert exists k :: 0 <= k < |rs[1..]| && |PageKeys(rs[1..][k], cutoff)| == rest;
        rest
      else
        assert |PageKeys(rs[0], cutoff)| == here;
        here
  }

  // ----- the sweep as a function of the responses -----

  /** The accumulated keys once a page's qualifying keys are pushed. */
  function Pending(acc: seq<string>, r: ListResponse, cutoff: Option<int>): seq<string>
  {
    acc + PageKeys(r, cutoff)
  }

  /** The in-loop flush: one batch once the threshold is reached. */
  function Flushed(pending: seq<string>): seq<Request>
  {
    if |pending| >= DeleteThreshold then [DeleteObjects(pending)] else []
  }

  /** What is still accumulated after the in-loop flush check. */
  function Kept(pending: seq<string>): seq<string>
  {
    if |pending| >= DeleteThreshold then [] else pending
  }

  /** The post-loop flush of whatever is left. */
  function FinalFlush(pending: seq<string>): seq<Request>
  {
    if |pending| > 0 then [DeleteObjects(pending)] else []
  }

  /** The requests made from one loop iteration on, given the token the next
      list request carries and the keys accumulated so far. A failed list
      call ends everything: the accumulated keys are dropped. */
  function Continue(prefix: string, pages: seq<ListResponse>, token: Option<string>,
                    acc: seq<string>, cutoff: Option<int>): (rs: seq<Request>)
    requires EndsListing(pages)
    ensures |rs| > 0 && rs[0] == ListObjects(prefix, token)
    decreases |pages|
  {
    if pages[0].ListFailed? then [ListObjects(prefix, token)]
    else
      var pending := Pending(acc, pages[0], cutoff);
      [ListObjects(prefix, token)] + Flushed(pending)
      + (if pages[0].isTruncated then Continue(prefix, pages[1..], pages[0].nextToken, Kept(pending), cutoff)
         else FinalFlush(Kept(pending)))
  }

  /** The guard `RETENTION_DAYS <= 0` lets the sweep run: the variable is
      unset (`undefined <= 0` is false) or positive. */
  predicate SweepEnabled(env: Env)
    ensures env.retentionDays.None? ==> SweepEnabled(env)
    ensures env.retentionDays.Some? ==> (SweepEnabled(env) <==> !(env.retentionDays.value <= 0))
  {
    env.retentionDays.None? || env.retentionDays.value > 0
  }

  /** The cutoff: `date` is the local date `RETENTION_DAYS` days before now.
      When the variable is unset the date is moved by `NaN` days, which makes
      it an invalid date. */
  function RetentionDate(env: Env, date: int): (cutoff: Option<int>)
    ensures cutoff.Some? <==> env.retentionDays.Some?
    ensures cutoff.Some? ==> cutoff.value == date
  {
    if env.retentionDays.Some? then Some(date) else None
  }

  /** Every request of one sweep; none at all when retention is disabled. */
  function Sweep(env: Env, date: int, pages: seq<ListResponse>): (rs: seq<Request>)
    requires SweepEnabled(env) ==> EndsListing(pages)
    ensures rs == [] <==> !SweepEnabled(env)
    ensures SweepEnabled(env) ==> rs[0] == ListObjects(ListPrefix(env.bucketSubfolder), None)
  {
    if !SweepEnabled(env) then []
    else Continue(ListPrefix(env.bucketSubfolder), pages, None, [], RetentionDate(env, date))
  }

  // ----- projections of a request trace -----

  /** The key lists of the delete requests, in order. */
  function Batches(rs: seq<Request>): seq<seq<string>>
  {
    if rs == [] then [] else (if rs[0].DeleteObjects? then [rs[0].keys] else []) + Batches(rs[1..])
  }

  /** The continuation tokens of the list requests, in order. */
  function Tokens(rs: seq<Request>): seq<Option<string>>
  {
    if rs == [] then [] else (if rs[0].ListObjects? then [rs[0].token] else []) + Tokens(rs[1..])
  }

  function Flatten(bs: seq<seq<string>>): seq<string>
  {
    if bs == [] then [] else bs[0] + Flatten(bs[1..])
  }

  predicate IsPrefix(a: seq<string>, b: seq<string>)
  {
    |a| <= |b| && b[..|a|] == a
  }

  lemma PrefixExtend(f: seq<string>, a: seq<string>, b: seq<string>)
    requires IsPrefix(a, b)
    ensures IsPrefix(f + a, f + b)
  {
    assert (f + b)[..|f + a|] == f + b[..|a|];
  }

  lemma {:induction false} BatchesAppend(a: seq<Request>, b: seq<Request>)
    ensures Batches(a + b) == Batches(a) + Batches(b)
  {
    if a == [] {
      assert a + b == b;
    } else {
      var h := (if a[0].DeleteObjects? then [a[0].keys] else []);
      assert (a + b)[0] == a[0] && (a + b)[1..] == a[1..] + b;
      calc {
        Batches(a + b);
        h + Batches(a[1..] + b);
        { BatchesAppend(a[1..], b); }
        h + (Batches(a[1..]) + Batches(b));
        (h + Batches(a[1..])) + Batches(b);
      }
    }
  }

  lemma {:induction false} TokensAppend(a: seq<Request>, b: seq<Request>)
    ensures Tokens(a + b) == Tokens(a) + Tokens(b)
  {
    if a == [] {
      assert a + b == b;
    } else {
      var h := (if a[0].ListObjects? then [a[0].token] else []);
      assert (a + b)[0] == a[0] && (a + b)[1..] == a[1..] + b;
      calc {
        Tokens(a + b);
        h + Tokens(a[1..] + b);
        { TokensAppend(a[1..], b); }
        h + (Tokens(a[1..]) + Tokens(b));
        (h + Tokens(a[1..])) + Tokens(b);
      }
    }
  }

  lemma {:induction false} FlattenAppend(a: seq<seq<string>>, b: seq<seq<string>>)
    ensures Flatten(a + b) == Flatten(a) + Flatten(b)
  {
    if a == [] {
      assert a + b == b;
    } else {
      var h := a[0];
      assert (a + b)[0] == a[0] && (a + b)[1..] == a[1..] + b;
      calc {
        Flatten(a + b);
        h + Flatten(a[1..] + b);
        { FlattenAppend(a[1..], b); }
        h + (Flatten(a[1..]) + Flatten(b));
        (h + Flatten(a[1..])) + Flatten(b);
      }
    }
  }

  lemma OneRequest(r: Request)
    ensures Batches([r]) == (if r.DeleteObjects? then [r.keys] else [])
    ensures Tokens([r]) == (if r.ListObjects? then [r.token] else [])
  {
    assert [r][1..] == [];
  }

  lemma FlushProjections(pending: seq<string>)
    ensures Tokens(Flushed(pending)) == [] && Tokens(FinalFlush(pending)) == []
    ensures Flatten(Batches(Flushed(pending))) == (if |pending| >= DeleteThreshold then pending else [])
    ensures Flatten(Batches(FinalFlush(pending))) == pending
  {
    OneRequest(DeleteObjects(pending));
    assert Flatten([pending]) == pending + Flatten([]);
  }

  /** One unfolding of `Continue` on a page that did not fail. */
  lemma ContinueUnfold(prefix: string, pages: seq<ListResponse>, token: Option<string>,
                       acc: seq<string>, cutoff: Option<int>)
    requires EndsListing(pages) && pages[0].Page?
    ensures var pending := Pending(acc, pages[0], cutoff);
            Continue(prefix, pages, token, acc, cutoff)
            == [ListObjects(prefix, token)] + Flushed(pending)
               + (if pages[0].isTruncated
                  then Continue(prefix, pages[1..], pages[0].nextToken, Kept(pending), cutoff)
                  else FinalFlush(Kept(pending)))
  {
  }

  /** The projections of the requests made after a page that did not fail,
      split into the list request, the in-loop flush and the rest. */
  lemma ContinueSplit(prefix: string, pages: seq<ListResponse>, token: Option<string>,
                      acc: seq<string>, cutoff: Option<int>)
    requires EndsListing(pages) && pages[0].Page?
    ensures var pending := Pending(acc, pages[0], cutoff);
            var rest := if pages[0].isTruncated
                        then Continue(prefix, pages[1..], pages[0].nextToken, Kept(pending), cutoff)
                        else FinalFlush(Kept(pending));
            var rs := Continue(prefix, pages, token, acc, cutoff);
            && rs == [ListObjects(prefix, token)] + Flushed(pending) + rest
            && Tokens(rs) == [token] + Tokens(rest)
            && Flatten(Batches(rs)) == Flatten(Batches(Flushed(pending))) + Flatten(Batches(rest))
  {
    var pending := Pending(acc, pages[0], cutoff);
    var rest := if pages[0].isTruncated
                then Continue(prefix, pages[1..], pages[0].nextToken, Kept(pending), cutoff)
                else FinalFlush(Kept(pending));
    var list := ListObjects(prefix, token);
    TokensAppend([list] + Flushed(pending), rest);
    TokensAppend([list], Flushed(pending));
    BatchesAppend([list] + Flushed(pending), rest);
    BatchesAppend([list], Flushed(pending));
    OneRequest(list);
    FlushProjections(pending);
    assert Batches([list]) + Batches(Flushed(pending)) == Batches(Flushed(pending));
    FlattenAppend(Batches(Flushed(pending)), Batches(rest));
  }

  /** What `ContinueLists` promises about one suffix of the responses: one
      list request per consumed response, the first carrying `token` and each
      later one the previous response's continuation token. */
  predicate ListsAccountedFor(prefix: string, pages: seq<ListResponse>, token: Option<string>,
                              acc: seq<string>, cutoff: Option<int>)
    requires EndsListing(pages)
  {
    var t := Tokens(Continue(prefix, pages, token, acc, cutoff));
    var n := FirstStop(pages);
    && |t| == n + 1 && t[0] == token
    && (forall j :: 0 <= j < n ==> pages[j].Page? && t[j + 1] == pages[j].nextToken)
  }

  lemma ListsOnTruncatedPage(prefix: string, pages: seq<ListResponse>, token: Option<string>,
                             acc: seq<string>, cutoff: Option<int>)
    requires EndsListing(pages) && pages[0].Page? && pages[0].isTruncated
    requires ListsAccountedFor(prefix, pages[1..], pages[0].nextToken,
                               Kept(Pending(acc, pages[0], cutoff)), cutoff)
    ensures ListsAccountedFor(prefix, pages, token, acc, cutoff)
  {
    var pending := Pending(acc, pages[0], cutoff);
    var t := Tokens(Continue(prefix, pages, token, acc, cutoff));
    var t' := Tokens(Continue(prefix, pages[1..], pages[0].nextToken, Kept(pending), cutoff));
    assert FirstStop(pages) == FirstStop(pages[1..]) + 1;
    assert t == [token] + t' by {
      ContinueSplit(prefix, pages, token, acc, cutoff);
    }
    TokensShifted(pages, token, t, t', FirstStop(pages[1..]));
  }

  /** Prepending the token of one more list request shifts the
      correspondence between tokens and responses by one. */
  lemma TokensShifted(pages: seq<ListResponse>, token: Option<string>,
                      t: seq<Option<string>>, t': seq<Option<string>>, n': nat)
    requires |pages| > n' && pages[0].Page?
    requires t == [token] + t'
    requires |t'| == n' + 1 && t'[0] == pages[0].nextToken
    requires forall j :: 0 <= j < n' ==> pages[1..][j].Page? && t'[j + 1] == pages[1..][j].nextToken
    ensures |t| == n' + 2 && t[0] == token
    ensures forall j :: 0 <= j < n' + 1 ==> pages[j].Page? && t[j + 1] == pages[j].nextToken
  {
    forall j | 0 <= j < n' + 1
      ensures pages[j].Page? && t[j + 1] == pages[j].nextToken
    {
      assert t[j + 1] == t'[j];
      if j > 0 {
        assert pages[1..][j - 1] == pages[j];
      }
    }
  }

  lemma {:induction false} ContinueLists(prefix: string, pages: seq<ListResponse>, token: Option<string>,
                                         acc: seq<string>, cutoff: Option<int>)
    requires EndsListing(pages)
    ensures ListsAccountedFor(prefix, pages, token, acc, cutoff)
    decreases |pages|
  {
    if pages[0].ListFailed? {
      OneRequest(ListObjects(prefix, token));
    } else if pages[0].isTruncated {
      var pending := Pending(acc, pages[0], cutoff);
      ContinueLists(prefix, pages[1..], pages[0].nextToken, Kept(pending), cutoff);
      ListsOnTruncatedPage(prefix, pages, token, acc, cutoff);
    } else {
      ContinueSplit(prefix, pages, token, acc, cutoff);
      FlushProjections(Kept(Pending(acc, pages[0], cutoff)));
    }
  }

  /** Every list request carries the same prefix. */
  lemma {:induction false} ContinuePrefix(prefix: string, pages: seq<ListResponse>, token: Option<string>,
                                          acc: seq<string>, cutoff: Option<int>)
    requires EndsListing(pages)
    ensures forall r :: r in Continue(prefix, pages, token, acc, cutoff) && r.ListObjects? ==> r.prefix == prefix
    decreases |pages|
  {
    if pages[0].Page? {
      var pending := Pending(acc, pages[0], cutoff);
      var rest := if pages[0].isTruncated
                  then Continue(prefix, pages[1..], pages[0].nextToken, Kept(pending), cutoff)
                  else FinalFlush(Kept(pending));
      var rs := Continue(prefix, pages, token, acc, cutoff);
      assert rs == [ListObjects(prefix, token)] + Flushed(pending) + rest;
      if pages[0].isTruncated {
        ContinuePrefix(prefix, pages[1..], pages[0].nextToken, Kept(pending), cutoff);
      }
      forall r | r in rs && r.ListObjects? ensures r.prefix == prefix {
        if r != ListObjects(prefix, token) && r !in Flushed(pending) {
          assert r in rest;
        }
      }
    }
  }

  /** What `ContinueKeys` promises about one suffix of the responses. */
  predicate KeysAccountedFor(prefix: string, pages: seq<ListResponse>, token: Option<string>,
                             acc: seq<string>, cutoff: Option<int>)
    requires EndsListing(pages)
  {
    var deleted := Flatten(Batches(Continue(prefix, pages, token, acc, cutoff)));
    var all := acc + ExpiredOf(Consumed(pages), cutoff);
    && IsPrefix(deleted, all)
    && (!ListingFailed(pages) ==> deleted == all)
    && (ListingFailed(pages) ==> |all| - |deleted| < DeleteThreshold)
  }

  lemma KeysOnFailure(prefix: string, pages: seq<ListResponse>, token: Option<string>,
                      acc: seq<string>, cutoff: Option<int>)
    requires EndsListing(pages) && pages[0].ListFailed? && |acc| < DeleteThreshold
    ensures KeysAccountedFor(prefix, pages, token, acc, cutoff)
  {
    OneRequest(ListObjects(prefix, token));
    assert Consumed(pages) == [pages[0]];
    assert ExpiredOf(Consumed(pages), cutoff) == [] + ExpiredOf([], cutoff);
  }

  lemma KeysOnLastPage(prefix: string, pages: seq<ListResponse>, token: Option<string>,
                       acc: seq<string>, cutoff: Option<int>)
    requires EndsListing(pages) && pages[0].Page? && !pages[0].isTruncated
    ensures KeysAccountedFor(prefix, pages, token, acc, cutoff)
  {
    var pending := Pending(acc, pages[0], cutoff);
    assert Flatten(Batches(Continue(prefix, pages, token, acc, cutoff))) == pending by {
      ContinueSplit(prefix, pages, token, acc, cutoff);
      FlushProjections(pending);
      FlushProjections(Kept(pending));
    }
    assert acc + ExpiredOf(Consumed(pages), cutoff) == pending by {
      assert Consumed(pages) == [pages[0]];
      assert ExpiredOf(Consumed(pages), cutoff) == PageKeys(pages[0], cutoff) + ExpiredOf([], cutoff);
    }
    assert !ListingFailed(pages) by {
      assert FirstStop(pages) == 0;
    }
  }

  lemma ConsumedKeysStep(pages: seq<ListResponse>, cutoff: Option<int>)
    requires EndsListing(pages) && !Stops(pages[0])
    ensures ExpiredOf(Consumed(pages), cutoff) == PageKeys(pages[0], cutoff) + ExpiredOf(Consumed(pages[1..]), cutoff)
  {
    assert Consumed(pages) == [pages[0]] + Consumed(pages[1..]);
  }

  lemma Regroup(acc: seq<string>, here: seq<string>, later: seq<string>, flushed: seq<string>, kept: seq<string>)
    requires acc + here == flushed + kept
    ensures acc + (here + later) == flushed + (kept + later)
  {
    calc {
      acc + (here + later);
      (acc + here) + later;
      (flushed + kept) + later;
      flushed + (kept + later);
    }
  }

  /** Keys flushed before a listing's rest keep the rest's account. */
  lemma AccountExtend(f: seq<string>, deleted: seq<string>, all: seq<string>, failed: bool)
    requires IsPrefix(deleted, all)
    requires !failed ==> deleted == all
    requires failed ==> |all| - |deleted| < DeleteThreshold
    ensures IsPrefix(f + deleted, f + all)
    ensures !failed ==> f + deleted == f + all
    ensures failed ==> |f + all| - |f + deleted| < DeleteThreshold
  {
    PrefixExtend(f, deleted, all);
  }

  /** The keys deleted after a truncated page: the in-loop batch, if one was
      due, then those of the rest of the listing. */
  lemma DeletedAfterTruncatedPage(prefix: string, pages: seq<ListResponse>, token: Option<string>,
                                  acc: seq<string>, cutoff: Option<int>)
    requires EndsListing(pages) && pages[0].Page? && pages[0].isTruncated
    ensures var pending := Pending(acc, pages[0], cutoff);
            Flatten(Batches(Continue(prefix, pages, token, acc, cutoff)))
            == (if |pending| >= DeleteThreshold then pending else [])
               + Flatten(Batches(Continue(prefix, pages[1..], pages[0].nextToken, Kept(pending), cutoff)))
  {
    ContinueSplit(prefix, pages, token, acc, cutoff);
    FlushProjections(Pending(acc, pages[0], cutoff));
  }

  /** The keys due after a truncated page, split the same way. */
  lemma DueAfterTruncatedPage(pages: seq<ListResponse>, acc: seq<string>, cutoff: Option<int>)
    requires EndsListing(pages) && pages[0].Page? && pages[0].isTruncated
    ensures var pending := Pending(acc, pages[0], cutoff);
            acc + ExpiredOf(Consumed(pages), cutoff)
            == (if |pending| >= DeleteThreshold then pending else [])
               + (Kept(pending) + ExpiredOf(Consumed(pages[1..]), cutoff))
  {
    var pending := Pending(acc, pages[0], cutoff);
    ConsumedKeysStep(pages, cutoff);
    Regroup(acc, PageKeys(pages[0], cutoff), ExpiredOf(Consumed(pages[1..]), cutoff),
            if |pending| >= DeleteThreshold then pending else [], Kept(pending));
  }

  lemma KeysOnTruncatedPage(prefix: string, pages: seq<ListResponse>, token: Option<string>,
                            acc: seq<string>, cutoff: Option<int>)
    requires EndsListing(pages) && pages[0].Page? && pages[0].isTruncated
    requires KeysAccountedFor(prefix, pages[1..], pages[0].nextToken,
                              Kept(Pending(acc, pages[0], cutoff)), cutoff)
    ensures KeysAccountedFor(prefix, pages, token, acc, cutoff)
  {
    var pending := Pending(acc, pages[0], cutoff);
    DeletedAfterTruncatedPage(prefix, pages, token, acc, cutoff);
    DueAfterTruncatedPage(pages, acc, cutoff);
    assert ListingFailed(pages) == ListingFailed(pages[1..]) by {
      assert FirstStop(pages) == 1 + FirstStop(pages[1..]);
    }
    AccountExtend(if |pending| >= DeleteThreshold then pending else [],
                  Flatten(Batches(Continue(prefix, pages[1..], pages[0].nextToken, Kept(pending), cutoff))),
                  Kept(pending) + ExpiredOf(Consumed(pages[1..]), cutoff), ListingFailed(pages));
  }

  /** The deleted keys are a prefix of the accumulated keys followed by the
      consumed pages' qualifying keys; all of them unless a list call failed,
      and then fewer than the threshold are dropped. */
  lemma {:induction false} ContinueKeys(prefix: string, pages: seq<ListResponse>, token: Option<string>,
                                        acc: seq<string>, cutoff: Option<int>)
    requires EndsListing(pages) && |acc| < DeleteThreshold
    ensures KeysAccountedFor(prefix, pages, token, acc, cutoff)
    decreases |pages|
  {
    if pages[0].ListFailed? {
      KeysOnFailure(prefix, pages, token, acc, cutoff);
    } else if !pages[0].isTruncated {
      KeysOnLastPage(prefix, pages, token, acc, cutoff);
    } else {
      ContinueKeys(prefix, pages[1..], pages[0].nextToken, Kept(Pending(acc, pages[0], cutoff)), cutoff);
      KeysOnTruncatedPage(prefix, pages, token, acc, cutoff);
    }
  }

  /** What `ContinueBatchSizes` promises about a trace with page bound `m`. */
  predicate BatchesBounded(rs: seq<Request>, m: nat)
  {
    && (forall j :: 0 <= j < |rs| && rs[j].DeleteObjects? ==> 0 < |rs[j].keys| < DeleteThreshold + m)
    && (forall j :: 0 <= j < |rs| - 1 && rs[j].DeleteObjects? ==> |rs[j].keys| >= DeleteThreshold)
  }

  /** A list request, an optional in-loop batch, then a bounded rest. */
  lemma BoundedAfterPage(list: Request, pending: seq<string>, rest: seq<Request>, m: nat)
    requires list.ListObjects?
    requires |pending| < DeleteThreshold + m
    requires BatchesBounded(rest, m)
    ensures BatchesBounded([list] + Flushed(pending) + rest, m)
  {
    var rs := [list] + Flushed(pending) + rest;
    var f := |Flushed(pending)|;
    forall j | 0 <= j < |rs| && rs[j].DeleteObjects?
      ensures 0 < |rs[j].keys| < DeleteThreshold + m
      ensures j < |rs| - 1 ==> |rs[j].keys| >= DeleteThreshold
    {
      if j > f {
        assert rs[j] == rest[j - 1 - f];
      }
    }
  }

  lemma BoundedWeaken(rs: seq<Request>, m: nat, m': nat)
    requires BatchesBounded(rs, m) && m <= m'
    ensures BatchesBounded(rs, m')
  {
  }

  lemma MaxPageKeysStep(pages: seq<ListResponse>, cutoff: Option<int>)
    requires EndsListing(pages)
    ensures |PageKeys(pages[0], cutoff)| <= MaxPageKeys(Consumed(pages), cutoff)
    ensures !Stops(pages[0]) ==> MaxPageKeys(Consumed(pages[1..]), cutoff) <= MaxPageKeys(Consumed(pages), cutoff)
  {
    assert Consumed(pages)[0] == pages[0];
    if !Stops(pages[0]) {
      assert Consumed(pages)[1..] == Consumed(pages[1..]);
    }
  }

  /** Every batch is non-empty and smaller than the threshold plus the
      largest page's qualifying keys; every batch but a trailing one reaches
      the threshold. */
  lemma {:induction false} ContinueBatchSizes(prefix: string, pages: seq<ListResponse>, token: Option<string>,
                                              acc: seq<string>, cutoff: Option<int>)
    requires EndsListing(pages) && |acc| < DeleteThreshold
    ensures BatchesBounded(Continue(prefix, pages, token, acc, cutoff), MaxPageKeys(Consumed(pages), cutoff))
    decreases |pages|
  {
    var m := MaxPageKeys(Consumed(pages), cutoff);
    if pages[0].ListFailed? {
      assert Continue(prefix, pages, token, acc, cutoff) == [ListObjects(prefix, token)];
    } else {
      var pending := Pending(acc, pages[0], cutoff);
      MaxPageKeysStep(pages, cutoff);
      ContinueUnfold(prefix, pages, token, acc, cutoff);
      if pages[0].isTruncated {
        ContinueBatchSizes(prefix, pages[1..], pages[0].nextToken, Kept(pending), cutoff);
        var rest := Continue(prefix, pages[1..], pages[0].nextToken, Kept(pending), cutoff);
        BoundedWeaken(rest, MaxPageKeys(Consumed(pages[1..]), cutoff), m);
        BoundedAfterPage(ListObjects(prefix, token), pending, rest, m);
      } else {
        var rest := FinalFlush(Kept(pending));
        assert BatchesBounded(rest, m);
        BoundedAfterPage(ListObjects(prefix, token), pending, rest, m);
      }
    }
  }

  /** After a failed list call nothing else is requested. */
  lemma {:induction false} ContinueFailureIsLast(prefix: string, pages: seq<ListResponse>, token: Option<string>,
                                                 acc: seq<string>, cutoff: Option<int>)
    requires EndsListing(pages) && ListingFailed(pages)
    ensures var rs := Continue(prefix, pages, token, acc, cutoff);
            |rs| > 0 && rs[|rs| - 1].ListObjects?
    decreases |pages|
  {
    if !pages[0].ListFailed? {
      var pending := Pending(acc, pages[0], cutoff);
      assert FirstStop(pages) == 1 + FirstStop(pages[1..]);
      ContinueFailureIsLast(prefix, pages[1..], pages[0].nextToken, Kept(pending), cutoff);
    }
  }

  // ----- properties of a whole sweep -----

  /** The first list request carries no token, each later one the previous
      response's continuation token; listing stops right after the first
      response that is not truncated (or fails). */
  lemma SweepListsUntilFirstStop(env: Env, date: int, pages: seq<ListResponse>)
    requires SweepEnabled(env) && EndsListing(pages)
    ensures var t := Tokens(Sweep(env, date, pages));
            var n := FirstStop(pages);
            && |t| == n + 1 && t[0] == None
            && (forall j :: 0 <= j < n ==> pages[j].Page? && t[j + 1] == pages[j].nextToken)
    ensures forall r :: r in Sweep(env, date, pages) && r.ListObjects? ==>
              r.prefix == ListPrefix(env.bucketSubfolder)
  {
    ContinueLists(ListPrefix(env.bucketSubfolder), pages, None, [], RetentionDate(env, date));
    ContinuePrefix(ListPrefix(env.bucketSubfolder), pages, None, [], RetentionDate(env, date));
  }

  /** With no list failure the delete batches, concatenated, are exactly the
      qualifying keys of every page read, in page order and within-page order.
      A list failure drops fewer than the threshold of them, from the end. */
  lemma SweepDeletesExpiredKeys(env: Env, date: int, pages: seq<ListResponse>)
    requires SweepEnabled(env) && EndsListing(pages)
    ensures var deleted := Flatten(Batches(Sweep(env, date, pages)));
            var all := ExpiredOf(Consumed(pages), RetentionDate(env, date));
            && IsPrefix(deleted, all)
            && (!ListingFailed(pages) ==> deleted == all)
            && (ListingFailed(pages) ==> |all| - |deleted| < DeleteThreshold)
  {
    ContinueKeys(ListPrefix(env.bucketSubfolder), pages, None, [], RetentionDate(env, date));
    assert [] + ExpiredOf(Consumed(pages), RetentionDate(env, date)) == ExpiredOf(Consumed(pages), RetentionDate(env, date));
  }

  lemma {:induction false} ExpiredOfSound(rs: seq<ListResponse>, cutoff: Option<int>, k: string)
    requires k in ExpiredOf(rs, cutoff)
    ensures exists r, o :: r in rs && r.Page? && o in r.contents && Expired(o, cutoff) && o.key == Some(k)
  {
    if k in PageKeys(rs[0], cutoff) {
      ExpiredKeysSound(rs[0].contents, cutoff, k);
      var o :| o in rs[0].contents && Expired(o, cutoff) && o.key == Some(k);
      assert rs[0] in rs;
    } else {
      ExpiredOfSound(rs[1..], cutoff, k);
      var r, o :| r in rs[1..] && r.Page? && o in r.contents && Expired(o, cutoff) && o.key == Some(k);
      assert r in rs;
    }
  }

  /** A key is sent for deletion only if it belongs to a listed object whose
      timestamp is before the cutoff and whose key is non-empty. */
  lemma SweepDeletesOnlyExpired(env: Env, date: int, pages: seq<ListResponse>, k: string)
    requires SweepEnabled(env) && EndsListing(pages)
    requires k in Flatten(Batches(Sweep(env, date, pages)))
    ensures exists r, o :: r in Consumed(pages) && r.Page? && o in r.contents
                           && Expired(o, RetentionDate(env, date)) && o.key == Some(k)
  {
    SweepDeletesExpiredKeys(env, date, pages);
    var deleted := Flatten(Batches(Sweep(env, date, pages)));
    var all := ExpiredOf(Consumed(pages), RetentionDate(env, date));
    var i :| 0 <= i < |deleted| && deleted[i] == k;
    assert all[i] == k;
    ExpiredOfSound(Consumed(pages), RetentionDate(env, date), k);
  }

  /** Every batch is non-empty; every batch flushed inside the loop holds at
      least the threshold, so only a trailing batch may be shorter; and no
      batch reaches the threshold plus the largest page's qualifying keys. */
  lemma SweepBatchSizes(env: Env, date: int, pages: seq<ListResponse>)
    requires SweepEnabled(env) && EndsListing(pages)
    ensures var rs := Sweep(env, date, pages);
            && (forall j :: 0 <= j < |rs| && rs[j].DeleteObjects? ==>
                  0 < |rs[j].keys| < DeleteThreshold + MaxPageKeys(Consumed(pages), RetentionDate(env, date)))
            && (forall j :: 0 <= j < |rs| - 1 && rs[j].DeleteObjects? ==> |rs[j].keys| >= DeleteThreshold)
  {
    ContinueBatchSizes(ListPrefix(env.bucketSubfolder), pages, None, [], RetentionDate(env, date));
  }

  /** A failed list call is the last request of the sweep. */
  lemma SweepFailureEndsSweep(env: Env, date: int, pages: seq<ListResponse>)
    requires SweepEnabled(env) && EndsListing(pages) && ListingFailed(pages)
    ensures var rs := Sweep(env, date, pages);
            |rs| > 0 && rs[|rs| - 1].ListObjects?
  {
    ContinueFailureIsLast(ListPrefix(env.bucketSubfolder), pages, None, [], RetentionDate(env, date));
  }

  /** Without a valid cutoff nothing qualifies, so a listing that starts
      with no pending keys only lists. */
  lemma {:induction false} NoCutoffOnlyLists(prefix: string, pages: seq<ListResponse>, token: Option<string>)
    requires EndsListing(pages)
    ensures forall r :: r in Continue(prefix, pages, token, [], None) ==> r.ListObjects?
    decreases |pages|
  {
    if pages[0].Page? {
      ContinueUnfold(prefix, pages, token, [], None);
      assert Pending([], pages[0], None) == [];
      if pages[0].isTruncated {
        NoCutoffOnlyLists(prefix, pages[1..], pages[0].nextToken);
      }
    }
  }

  /** With `RETENTION_DAYS` unset the sweep still runs, but against an
      invalid date: it lists every page up to the first stop and sends no
      delete request. */
  lemma SweepUnsetOnlyLists(env: Env, date: int, pages: seq<ListResponse>)
    requires env.retentionDays.None? && EndsListing(pages)
    ensures Sweep(env, date, pages) != []
    ensures forall r :: r in Sweep(env, date, pages) ==> r.ListObjects?
  {
    NoCutoffOnlyLists(ListPrefix(env.bucketSubfolder), pages, None);
  }

  // ----- the sweep as the source runs it -----

  /** One iteration of the list loop on a page keeps the loop invariant. */
  lemma LoopStep(before: seq<Request>, goal: seq<Request>, prefix: string, pages: seq<ListResponse>,
                 i: nat, token: Option<string>, acc: seq<string>, cutoff: Option<int>)
    requires i < |pages| && EndsListing(pages[i..]) && pages[i].Page?
    requires before + Continue(prefix, pages[i..], token, acc, cutoff) == goal
    ensures var pending := acc + ExpiredKeys(pages[i].contents, cutoff);
            var after := before + [ListObjects(prefix, token)] + Flushed(pending);
            && (pages[i].isTruncated ==>
                  && EndsListing(pages[i + 1..])
                  && after + Continue(prefix, pages[i + 1..], pages[i].nextToken, Kept(pending), cutoff) == goal)
            && (!pages[i].isTruncated ==> after + FinalFlush(Kept(pending)) == goal)
  {
    var ps := pages[i..];
    var pending := acc + ExpiredKeys(pages[i].contents, cutoff);
    var rest := if pages[i].isTruncated
                then Continue(prefix, pages[i + 1..], pages[i].nextToken, Kept(pending), cutoff)
                else FinalFlush(Kept(pending));
    assert Continue(prefix, ps, token, acc, cutoff) == [ListObjects(prefix, token)] + Flushed(pending) + rest by {
      assert ps[0] == pages[i] && ps[1..] == pages[i + 1..];
      ContinueUnfold(prefix, ps, token, acc, cutoff);
    }
    AppendRequests(before, [ListObjects(prefix, token)], Flushed(pending), rest);
    if pages[i].isTruncated {
      assert pages[i + 1..] == ps[1..];
    }
  }

  lemma AppendRequests(a: seq<Request>, b: seq<Request>, c: seq<Request>, d: seq<Request>)
    ensures a + (b + c + d) == a + b + c + d
  {
  }

  /** Sends one delete batch; a rejected call or per-object errors are only
      reported (as `failed`), never propagated. */
  method DeleteExpiredObjects(keys: seq<string>, response: DeleteResponse) returns (sent: Request, failed: bool)
    ensures sent == DeleteObjects(keys)
    ensures failed <==> response.DeleteThrew? || |response.errors| > 0
  {
    sent := DeleteObjects(keys);
    match response
    case DeleteThrew =>
      failed := true;
    case DeleteResult(_, errors) =>
      failed := |errors| > 0;
  }

  /** The sweep: a list loop over the responses in `pages`, flushing the
      accumulated keys once they reach the threshold, then the remainder. The
      k-th delete call is answered by `deleteResponses(k)`. The requests made
      are exactly `Sweep`, whatever the delete calls answer; the method always
      returns normally. */
  method ApplyRetentionPolicy(env: Env, date: int, pages: seq<ListResponse>,
                              deleteResponses: nat -> DeleteResponse)
    returns (requests: seq<Request>)
    requires SweepEnabled(env) ==> EndsListing(pages)
    ensures requests == Sweep(env, date, pages)
    ensures !SweepEnabled(env) ==> requests == []
  {
    requests := [];
    if env.retentionDays.Some? && env.retentionDays.value <= 0 {
      return;
    }
    var cutoff := RetentionDate(env, date);
    var prefix := ListPrefix(env.bucketSubfolder);
    var objectsToDelete: seq<string> := [];
    var isTruncated := true;
    var continuationToken: Option<string> := None;
    var i := 0;
    var batch: nat := 0;
    ghost var goal := Sweep(env, date, pages);
    while isTruncated
      invariant 0 <= i <= |pages|
      invariant |objectsToDelete| < DeleteThreshold
      invariant isTruncated ==> EndsListing(pages[i..])
      invariant isTruncated ==>
        requests + Continue(prefix, pages[i..], continuationToken, objectsToDelete, cutoff) == goal
      invariant !isTruncated ==> requests + FinalFlush(objectsToDelete) == goal
      decreases |pages| - i, isTruncated
    {
      ghost var before := requests;
      var list := ListObjects(prefix, continuationToken);
      requests := requests + [list];
      var data := pages[i];
      if data.ListFailed? {
        // the rejection is caught outside the loop: pending keys are dropped
        assert requests == goal;
        return;
      }
      LoopStep(before, goal, prefix, pages, i, continuationToken, objectsToDelete, cutoff);
      i := i + 1;
      objectsToDelete := objectsToDelete + ExpiredKeys(data.contents, cutoff);
      ghost var pending := objectsToDelete;
      isTruncated := data.isTruncated;
      continuationToken := data.nextToken;
      if |objectsToDelete| >= DeleteThreshold {
        var sent, _ := DeleteExpiredObjects(objectsToDelete, deleteResponses(batch));
        requests := requests + [sent];
        batch := batch + 1;
        objectsToDelete := [];
      }
      assert requests == before + [list] + Flushed(pending);
      assert objectsToDelete == Kept(pending);
    }
    if |objectsToDelete| > 0 {
      var sent, _ := DeleteExpiredObjects(objectsToDelete, deleteResponses(batch));
      requests := requests + [sent];
    }
  }
}
