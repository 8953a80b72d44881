/** Following a listing from page to page until one says it is the last. `src/objects.rs`. */
module BucketListing {
  import opened Prelude
  import opened Listing

  /** What the server answers to the nth request with a token; none when the request fails. */
  type Server = (nat, Option<string>) -> Option<string>

  /** The page an answer reads as. */
  function Reply(server: Server, stamps: Stamps, n: nat, token: Option<string>): Option<Page>
  {
    match server(n, token)
    case None => None
    case Some(body) => ParsePage(body, stamps)
  }

  /** The token the nth page is asked for with. */
  function TokenAt(pages: seq<Page>, n: nat): Option<string>
    requires n <= |pages|
  {
    if n == 0 then None else pages[n - 1].next
  }

  function AllEntries(pages: seq<Page>): seq<Entry>
  {
    if pages == [] then [] else AllEntries(pages[..|pages| - 1]) + pages[|pages| - 1].entries
  }

  /** Each page answers the token the page before it named, and no page but the last is without one or names its own. */
  ghost predicate Followed(server: Server, stamps: Stamps, pages: seq<Page>)
  {
    forall i :: 0 <= i < |pages| ==> FollowedAt(server, stamps, pages, i)
  }

  ghost predicate FollowedAt(server: Server, stamps: Stamps, pages: seq<Page>, i: nat)
    requires i < |pages|
  {
    && Reply(server, stamps, i, TokenAt(pages, i)) == Some(pages[i])
    && (i < |pages| - 1 ==> GoesOn(pages, i))
  }

  /** The page names a token to go on with, and not the one it was asked for with. */
  predicate GoesOn(pages: seq<Page>, i: nat)
    requires i < |pages|
  {
    pages[i].next.Some? && pages[i].next != TokenAt(pages, i)
  }

  /** What following a listing may end with: everything, up to a page that is the last; or a failure, at a request that
      failed or would not read, or at a page that named the token it was asked for with. */
  ghost predicate Ended(server: Server, stamps: Stamps, pages: seq<Page>, result: Result<seq<Entry>, ()>)
  {
    && Followed(server, stamps, pages)
    && match result
       case Success(entries) =>
         pages != [] && pages[|pages| - 1].next.None? && entries == AllEntries(pages)
       case Failure(_) =>
         if pages == [] || GoesOn(pages, |pages| - 1) then
           Reply(server, stamps, |pages|, TokenAt(pages, |pages|)).None?
         else
           pages[|pages| - 1].next.Some?
  }

  ghost predicate Listed(server: Server, stamps: Stamps, result: Result<seq<Entry>, ()>)
  {
    exists pages :: Ended(server, stamps, pages, result)
  }

  lemma FollowedOn(server: Server, stamps: Stamps, pages: seq<Page>, page: Page)
    requires Followed(server, stamps, pages) && (pages != [] ==> GoesOn(pages, |pages| - 1))
    requires Reply(server, stamps, |pages|, TokenAt(pages, |pages|)) == Some(page)
    ensures Followed(server, stamps, pages + [page])
  {
    hide Reply;
    var more := pages + [page];
    forall i | 0 <= i < |more|
      ensures FollowedAt(server, stamps, more, i)
    {
      assert TokenAt(more, i) == TokenAt(pages, i);
      if i < |pages| {
        assert FollowedAt(server, stamps, pages, i);
        assert GoesOn(pages, i);
      }
    }
  }

  lemma EntriesOn(pages: seq<Page>, page: Page)
    ensures AllEntries(pages + [page]) == AllEntries(pages) + page.entries
  {
    assert (pages + [page])[..|pages|] == pages;
  }

  /** Every object, following continuation tokens to exhaustion; the server answers fewer than `bound` requests. */
  method List(server: Server, stamps: Stamps, ghost bound: nat) returns (result: Result<seq<Entry>, ()>)
    requires forall n, token :: n >= bound ==> server(n, token).None?
    ensures Listed(server, stamps, result)
  {
    var entries, token, n := [], None, 0;
    ghost var pages := [];
    while true
      invariant n == |pages| && entries == AllEntries(pages) && token == TokenAt(pages, n)
      invariant Followed(server, stamps, pages)
      invariant pages != [] ==> GoesOn(pages, n - 1)
      decreases bound - n
    {
      hide Followed, ParsePage;
      var body := server(n, token);
      if body.None? {
        assert Ended(server, stamps, pages, Failure(()));
        return Failure(());
      }
      var page := ParseListPage(body.value, stamps);
      if page.None? {
        assert Ended(server, stamps, pages, Failure(()));
        return Failure(());
      }
      FollowedOn(server, stamps, pages, page.value);
      EntriesOn(pages, page.value);
      entries, pages, n := entries + page.value.entries, pages + [page.value], n + 1;
      match page.value.next
      case None =>
        assert Ended(server, stamps, pages, Success(entries));
        return Success(entries);
      case Some(next) =>
        if token == Some(next) {
          assert Ended(server, stamps, pages, Failure(()));
          return Failure(());
        }
        token := Some(next);
    }
  }

  /** A server that holds `bucket`, a page at a time: every page but the last names a token for the next, different from
      the one before, and the page for each token is written in a layout of the server's own. */
  ghost predicate Serves(server: Server, stamps: Stamps, bucket: seq<Page>, layouts: nat -> Layout)
  {
    && Lawful(stamps) && bucket != [] && bucket[|bucket| - 1].next.None?
    && (forall i :: 0 <= i < |bucket| - 1 ==> GoesOn(bucket, i))
    && (forall i, j :: 0 <= i < |bucket| && 0 <= j < |bucket[i].entries| ==> bucket[i].entries[j].size < U64_LIMIT)
    && (forall i :: 0 <= i < |bucket| ==>
          Plain(layouts(i)) && server(i, TokenAt(bucket, i)) == Some(RenderPage(layouts(i), stamps, bucket[i])))
  }

  lemma Served(server: Server, stamps: Stamps, bucket: seq<Page>, layouts: nat -> Layout, i: nat)
    requires Serves(server, stamps, bucket, layouts) && i < |bucket|
    ensures Reply(server, stamps, i, TokenAt(bucket, i)) == Some(bucket[i])
  {
    hide ParsePage, RenderPage;
    PageReads(layouts(i), stamps, bucket[i]);
  }

  lemma {:induction false} PageIsTheBuckets(server: Server, stamps: Stamps, bucket: seq<Page>, layouts: nat -> Layout,
                                            pages: seq<Page>, i: nat)
    requires Serves(server, stamps, bucket, layouts) && Followed(server, stamps, pages)
    requires i < |pages|
    ensures i < |bucket| && pages[i] == bucket[i]
  {
    hide *;
    if i > 0 {
      PageIsTheBuckets(server, stamps, bucket, layouts, pages, i - 1);
    }
    NotPastTheEnd(server, stamps, bucket, layouts, pages, i);
    Served(server, stamps, bucket, layouts, i);
  }

  lemma NotPastTheEnd(server: Server, stamps: Stamps, bucket: seq<Page>, layouts: nat -> Layout, pages: seq<Page>, i: nat)
    requires Serves(server, stamps, bucket, layouts) && Followed(server, stamps, pages)
    requires i < |pages| && (i > 0 ==> i - 1 < |bucket| && pages[i - 1] == bucket[i - 1])
    ensures i < |bucket| && TokenAt(pages, i) == TokenAt(bucket, i)
    ensures Reply(server, stamps, i, TokenAt(pages, i)) == Some(pages[i])
  {
    hide Reply, Serves, Followed, GoesOn;
    FollowedOneByOne(server, stamps, pages, i);
    if i > 0 {
      FollowedOneByOne(server, stamps, pages, i - 1);
      NamesAToken(pages, i - 1);
      BucketGoesOn(server, stamps, bucket, layouts, i);
    } else {
      BucketGoesOn(server, stamps, bucket, layouts, 0);
    }
  }

  lemma FollowedOneByOne(server: Server, stamps: Stamps, pages: seq<Page>, i: nat)
    requires Followed(server, stamps, pages) && i < |pages|
    ensures Reply(server, stamps, i, TokenAt(pages, i)) == Some(pages[i]) && (i < |pages| - 1 ==> GoesOn(pages, i))
  {
    assert FollowedAt(server, stamps, pages, i);
  }

  lemma NamesAToken(pages: seq<Page>, i: nat)
    requires i < |pages| && GoesOn(pages, i)
    ensures pages[i].next.Some?
  {
  }

  /** So a bucket that stays as it is while it is listed is listed whole, whatever the layout of its pages. */
  lemma BucketIsListed(server: Server, stamps: Stamps, bucket: seq<Page>, layouts: nat -> Layout,
                       result: Result<seq<Entry>, ()>)
    requires Serves(server, stamps, bucket, layouts) && Listed(server, stamps, result)
    ensures result == Success(AllEntries(bucket))
  {
    var pages :| Ended(server, stamps, pages, result);
    assert Followed(server, stamps, pages);
    hide *;
    AllAreTheBuckets(server, stamps, bucket, layouts, pages);
    EndsAtTheEnd(server, stamps, bucket, layouts, pages, result);
  }

  /** Following a bucket neither fails nor ends before its last page. */
  lemma EndsAtTheEnd(server: Server, stamps: Stamps, bucket: seq<Page>, layouts: nat -> Layout, pages: seq<Page>,
                     result: Result<seq<Entry>, ()>)
    requires Serves(server, stamps, bucket, layouts) && Ended(server, stamps, pages, result)
    requires |pages| <= |bucket| && pages == bucket[..|pages|] && (|pages| == |bucket| ==> pages == bucket)
    ensures result == Success(AllEntries(bucket))
  {
    hide Reply, AllEntries, Followed, Serves;
    var n := |pages|;
    BucketGoesOn(server, stamps, bucket, layouts, n);
    if n > 0 {
      assert pages[n - 1] == bucket[n - 1];
      SameToken(bucket, n, n - 1);
    }
    SameToken(bucket, n, n);
    if n < |bucket| {
      Served(server, stamps, bucket, layouts, n);
    }
  }

  lemma BucketGoesOn(server: Server, stamps: Stamps, bucket: seq<Page>, layouts: nat -> Layout, n: nat)
    requires Serves(server, stamps, bucket, layouts)
    ensures bucket != [] && bucket[|bucket| - 1].next.None?
    ensures 0 < n < |bucket| ==> GoesOn(bucket, n - 1)
  {
    hide RenderPage, Plain, Lawful, GoesOn;
  }

  lemma SameToken(bucket: seq<Page>, n: nat, i: nat)
    requires i <= n <= |bucket|
    ensures TokenAt(bucket[..n], i) == TokenAt(bucket, i)
  {
  }

  /** What was followed is how the bucket begins. */
  lemma AllAreTheBuckets(server: Server, stamps: Stamps, bucket: seq<Page>, layouts: nat -> Layout, pages: seq<Page>)
    requires Serves(server, stamps, bucket, layouts) && Followed(server, stamps, pages)
    ensures |pages| <= |bucket| && pages == bucket[..|pages|]
    ensures |pages| == |bucket| ==> pages == bucket
  {
    hide *;
    forall i | 0 <= i < |pages|
      ensures i < |bucket| && pages[i] == bucket[i]
    {
      PageIsTheBuckets(server, stamps, bucket, layouts, pages, i);
    }
    if pages != [] {
      PageIsTheBuckets(server, stamps, bucket, layouts, pages, |pages| - 1);
    }
  }
}
