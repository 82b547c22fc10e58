/** Properties relating several operations of the storage facade. */
module RaftStorageProofs {
  import opened Wrappers
  import opened RaftCmd
  import opened RaftStorage

  /** A request reads as a modification only if it is exactly that modification's translation. */
  lemma FromRequestExact(r: Request, m: Modify)
    ensures FromRequest(r) == Some(m) <==> r == ToRequest(m)
  {
  }

  /** Translation distributes over concatenation: batches are translated element by element, in order. */
  lemma TranslateAppend(a: seq<Modify>, b: seq<Modify>)
    ensures Translate(a + b) == Translate(a) + Translate(b)
  {
  }

  /** The i-th request of a translated batch is the translation of the i-th modification. */
  lemma TranslatePointwise(batch: seq<Modify>, i: int)
    requires 0 <= i < |batch|
    ensures Translate(batch)[i] == ToRequest(batch[i])
  {
  }

  /** A request list decodes to a batch exactly when it is that batch's translation. */
  lemma {:induction false} DecodeBatchExact(reqs: seq<Request>, batch: seq<Modify>)
    ensures DecodeBatch(reqs) == Some(batch) <==> reqs == Translate(batch)
    decreases |reqs|
  {
    if DecodeBatch(reqs) == Some(batch) && reqs != [] {
      var prefix := reqs[..|reqs| - 1];
      var ms := DecodeBatch(prefix).value;
      var m := FromRequest(reqs[|reqs| - 1]).value;
      assert batch == ms + [m];
      assert batch[..|batch| - 1] == ms;
      DecodeBatchExact(prefix, ms);
      FromRequestExact(reqs[|reqs| - 1], m);
      assert reqs == prefix + [reqs[|reqs| - 1]];
    }
    if reqs == Translate(batch) {
      TranslateDecodes(batch);
    }
  }

  /** Write and Reader send the same header for the same context. */
  lemma SameHeader(ctx: Context, batch: seq<Modify>)
    ensures WriteCommand(ctx, batch).header == ReadCommand(ctx).header
  {
  }

  /** A header error decides checkResponse whatever the expected count. */
  lemma RegionErrorPrecedence(resp: RaftCmdResponse, n: int, k: int)
    requires resp.header.error.Some?
    ensures CheckResponse(resp, n) == CheckResponse(resp, k)
    ensures CheckResponse(resp, n).error.RegionError?
  {
  }

  /**
   Reader panics exactly when a delivered response passes checkResponse but
   comes without a handle, or without a region in its snap response; a panic
   never discards the handle, and the only panic without a handle is the
   missing-handle one.
   */
  lemma ReaderPanics(ctx: Context, router: RaftCmdRequest -> Delivery)
    ensures Reader(ctx, router).result.Panic? <==>
              && router(ReadCommand(ctx)).Delivered?
              && CheckResponse(router(ReadCommand(ctx)).resp, 1).Pass?
              && (|| router(ReadCommand(ctx)).txn.None?
                  || router(ReadCommand(ctx)).resp.responses[0].snap.None?
                  || router(ReadCommand(ctx)).resp.responses[0].snap.value.region.None?)
    ensures Reader(ctx, router).result.Panic? ==>
              && !Reader(ctx, router).discarded
              && (Reader(ctx, router).result.reason == MissingSnapHandle <==> router(ReadCommand(ctx)).txn.None?)
  {
  }
}
