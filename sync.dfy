/**
 * The Gmail sync loop: page through the message listing, normalise each
 * message, store the ones that carry an amount, and count them.
 */
module Sync {
  import opened Common
  import opened Dates
  import opened Expenses
  import opened Mail

  /** One response of the message listing, with its messages already fetched
      in full. */
  datatype Page = Page(messages: seq<Payload>, nextPageToken: Option<string>)

  /** The loop ends after this page: it is empty, or names no next page. */
  predicate Stops(page: Page)
  {
    page.messages == [] || page.nextPageToken.None? || page.nextPageToken.value == ""
  }

  /** The listing ends: some response stops the loop. */
  predicate ListingEnds(pages: seq<Page>)
  {
    exists i :: 0 <= i < |pages| && Stops(pages[i])
  }

  /** The position of the response that ends the loop. */
  function FirstStop(pages: seq<Page>): (n: nat)
    requires ListingEnds(pages)
    ensures n < |pages| && Stops(pages[n])
    ensures forall q :: 0 <= q < n ==> !Stops(pages[q])
  {
    if Stops(pages[0]) then 0
    else
      assert ListingEnds(pages[1..]) by {
        var i :| 0 <= i < |pages| && Stops(pages[i]);
        assert pages[1..][i - 1] == pages[i];
      }
      var n := FirstStop(pages[1..]);
      assert forall q :: 1 <= q <= n ==> pages[q] == pages[1..][q - 1];
      n + 1
  }

  /** The entries the loop stores while reading `pages`, in order. */
  function Batch(pages: seq<Page>, step: Normalizer): seq<Entry>
  {
    if pages == [] then []
    else Batch(pages[..|pages| - 1], step) + Harvest(pages[|pages| - 1].messages, step)
  }

  /** What one sync run stores: everything the pages up to and including the
      stopping one yield. */
  function Stored(pages: seq<Page>, step: Normalizer): seq<Entry>
    requires ListingEnds(pages)
  {
    Batch(pages[..FirstStop(pages) + 1], step)
  }

  /** Stores `e` after a batch already stored from identifier `first` on. */
  method StoreNext(ledger: Ledger, ghost rows0: seq<Expense>, ghost stored: seq<Entry>, e: Entry, ghost first: nat)
    requires ledger.Valid()
    requires ledger.rows == rows0 + Numbered(stored, first) && ledger.nextId == first + |stored|
    modifies ledger
    ensures ledger.Valid()
    ensures ledger.rows == rows0 + Numbered(stored + [e], first) && ledger.nextId == first + |stored| + 1
  {
    var _ := ledger.Store(e);
    StoreAfter(rows0, stored, e, first);
  }

  /** The loop body for one page: store what each message yields, in order,
      and count the rows stored. */
  method StorePage(ledger: Ledger, msgs: seq<Payload>, step: Normalizer) returns (n: nat)
    requires ledger.Valid()
    modifies ledger
    ensures ledger.Valid()
    ensures ledger.rows == old(ledger.rows) + Numbered(Harvest(msgs, step), old(ledger.nextId))
    ensures ledger.nextId == old(ledger.nextId) + n
    ensures n == |Harvest(msgs, step)|
  {
    n := 0;
    ghost var rows0, first := ledger.rows, ledger.nextId;
    for i := 0 to |msgs|
      invariant ledger.Valid()
      invariant ledger.rows == rows0 + Numbered(Harvest(msgs[..i], step), first)
      invariant ledger.nextId == first + n
      invariant n == |Harvest(msgs[..i], step)|
    {
      ghost var sofar := Harvest(msgs[..i], step);
      HarvestStep(msgs, i, step);
      var c := step(msgs[i]);
      if c.Some? {
        assert Harvest(msgs[..i + 1], step) == sofar + [c.value];
        StoreNext(ledger, rows0, sofar, c.value, first);
        n := n + 1;
      } else {
        assert Harvest(msgs[..i + 1], step) == sofar;
        assert ledger.rows == rows0 + Numbered(sofar, first);
      }
    }
    assert msgs[..|msgs|] == msgs;
  }

  /** Reading one more response extends the batch by what its messages yield. */
  lemma BatchStep(pages: seq<Page>, p: nat, step: Normalizer)
    requires p < |pages|
    ensures Batch(pages[..p + 1], step) == Batch(pages[..p], step) + Harvest(pages[p].messages, step)
  {
    assert pages[..p + 1][..p] == pages[..p];
  }

  /** Stores what response `p` yields after the responses before it. */
  method StoreResponse(ledger: Ledger, pages: seq<Page>, p: nat, step: Normalizer,
                       ghost rows0: seq<Expense>, ghost first: nat) returns (n: nat)
    requires p < |pages| && ledger.Valid()
    requires ledger.rows == rows0 + Numbered(Batch(pages[..p], step), first)
    requires ledger.nextId == first + |Batch(pages[..p], step)|
    modifies ledger
    ensures ledger.Valid()
    ensures ledger.rows == rows0 + Numbered(Batch(pages[..p + 1], step), first)
    ensures ledger.nextId == first + |Batch(pages[..p + 1], step)|
    ensures n == |Harvest(pages[p].messages, step)|
    ensures |Batch(pages[..p + 1], step)| == |Batch(pages[..p], step)| + n
  {
    ghost var done := Batch(pages[..p], step);
    BatchStep(pages, p, step);
    n := StorePage(ledger, pages[p].messages, step);
    StoreBatchAfter(rows0, done, Harvest(pages[p].messages, step), first);
  }

  /** A response without messages adds nothing. */
  lemma EmptyResponse(pages: seq<Page>, p: nat, step: Normalizer)
    requires p < |pages| && pages[p].messages == []
    ensures Batch(pages[..p + 1], step) == Batch(pages[..p], step)
  {
    BatchStep(pages, p, step);
    assert Batch(pages[..p], step) + [] == Batch(pages[..p], step);
  }

  /**
   * `sync_gmail_expenses`: the new rows are the stored entries under fresh
   * consecutive identifiers, nothing stored before changes, and the count
   * returned is the number of rows appended.
   */
  method SyncMessages(ledger: Ledger, pages: seq<Page>, step: Normalizer) returns (added: nat)
    requires ledger.Valid()
    requires ListingEnds(pages)
    modifies ledger
    ensures ledger.Valid()
    ensures ledger.rows == old(ledger.rows) + Numbered(Stored(pages, step), old(ledger.nextId))
    ensures ledger.nextId == old(ledger.nextId) + added
    ensures added == |Stored(pages, step)|
  {
    ghost var stop := FirstStop(pages);
    ghost var rows0, first := ledger.rows, ledger.nextId;
    added := 0;
    var p := 0;
    while true
      invariant p <= stop
      invariant ledger.Valid()
      invariant ledger.rows == rows0 + Numbered(Batch(pages[..p], step), first)
      invariant ledger.nextId == first + added
      invariant added == |Batch(pages[..p], step)|
      decreases stop - p
    {
      var page := pages[p];
      if page.messages == [] {
        EmptyResponse(pages, p, step);
        p := p + 1;
        break;
      }
      var n := StoreResponse(ledger, pages, p, step, rows0, first);
      added := added + n;
      p := p + 1;
      if page.nextPageToken.None? || page.nextPageToken.value == "" {
        break;
      }
      assert !Stops(page);
    }
    assert p == stop + 1;
  }

  /** `sync_gmail_expenses` over a listing whose messages are normalised with
      the given library calls. */
  method SyncGmail(ledger: Ledger, pages: seq<Page>, codec: MailCodec, today: CalendarDate) returns (added: nat)
    requires ledger.Valid()
    requires ListingEnds(pages)
    modifies ledger
    ensures ledger.Valid()
    ensures ledger.rows == old(ledger.rows) + Numbered(Stored(pages, Normalize(codec, today)), old(ledger.nextId))
    ensures ledger.nextId == old(ledger.nextId) + added
    ensures added == |Stored(pages, Normalize(codec, today))|
  {
    added := SyncMessages(ledger, pages, Normalize(codec, today));
  }
}
