/**
 The deterministic part of the raft-backed storage facade: translating a write
 batch into a raft command, building the request header from the client's
 context, validating the raft command response, and turning the outcome of a
 `Snap` proposal into a region reader.

 The raft router together with its blocking callback is an abstract input
 `router`: given the command the facade proposes, it either refuses it at once
 (`SendFailed`) or eventually delivers a response, together with the storage
 transaction handle the applier attached to the callback, if any.
 */
module RaftStorage {
  import opened Wrappers
  import opened RaftCmd

  /** The error SendRaftCommand returned; its content is the router's business. */
  datatype SendError = SendError(reason: string)

  /** The errors Write and Reader return. */
  datatype StorageError =
    | RegionError(requestErr: RequestError)
    | ResponseCountMismatch(responses: nat, requests: int)
    | ProposeFailed(cause: SendError)

  /** An engine read transaction handle (badger.Txn); only its identity matters here. */
  datatype Txn = Txn(id: nat)

  /** What the router and the callback together produce for one proposal. */
  datatype Delivery =
    | SendFailed(err: SendError)
    | Delivered(resp: RaftCmdResponse, txn: Option<Txn>)

  /** A region reader: the read handle and the region descriptor as of the `Snap`'s application. */
  datatype RegionReader = RegionReader(txn: Txn, region: Region)

  /** The programmer-error panics on the read path. */
  datatype PanicReason =
    | MissingSnapHandle    // "can not found region snap"
    | WrongResponseCount   // "wrong response count for snap cmd"
    | SnapRegionMissing    // nil dereference reading the region out of the snap response

  datatype ReadResult =
    | ReadOk(reader: RegionReader)
    | ReadErr(err: StorageError)
    | Panic(reason: PanicReason)

  /** The result of Reader, and whether it discarded the delivered transaction handle. */
  datatype ReadStep = ReadStep(result: ReadResult, discarded: bool)

  // ---------------------------------------------------------------------------
  // Response validation

  /** checkResponse: a header error wins; otherwise the response count must match. */
  function CheckResponse(resp: RaftCmdResponse, reqCount: int): (r: Outcome<StorageError>)
    ensures resp.header.error.Some? ==> r == Fail(RegionError(resp.header.error.value))
    ensures r.Pass? <==> resp.header.error.None? && |resp.responses| == reqCount
    ensures r.Fail? && resp.header.error.None? ==>
              r.error == ResponseCountMismatch(|resp.responses|, reqCount)
  {
    if resp.header.error.Some? then
      Fail(RegionError(resp.header.error.value))
    else if |resp.responses| != reqCount then
      Fail(ResponseCountMismatch(|resp.responses|, reqCount))
    else
      Pass
  }

  // ---------------------------------------------------------------------------
  // Write-batch translation

  /** The raft request one modification becomes. */
  function ToRequest(m: Modify): (r: Request)
    ensures FromRequest(r) == Some(m)
  {
    match m
    case Put(cf, key, value) =>
      Request(CmdPut, Some(PutRequest(cf, key, value)), None, None)
    case Delete(cf, key) =>
      Request(CmdDelete, None, Some(DeleteRequest(cf, key)), None)
  }

  /**
   The reading of a raft request as a modification: a `Put` or `Delete` request
   whose one payload matches its command type. Any other request is not the
   image of a modification.
   */
  function FromRequest(r: Request): Option<Modify>
  {
    match r.cmdType
    case CmdPut =>
      if r.put.Some? && r.delete.None? && r.snap.None? then
        Some(Modify.Put(r.put.value.cf, r.put.value.key, r.put.value.value))
      else None
    case CmdDelete =>
      if r.put.None? && r.delete.Some? && r.snap.None? then
        Some(Modify.Delete(r.delete.value.cf, r.delete.value.key))
      else None
    case _ => None
  }

  /** The loop of Write that appends one request per modification, in order. */
  function Translate(batch: seq<Modify>): (reqs: seq<Request>)
    ensures |reqs| == |batch|
    ensures forall i :: 0 <= i < |batch| ==> FromRequest(reqs[i]) == Some(batch[i])
  {
    if batch == [] then []
    else Translate(batch[..|batch| - 1]) + [ToRequest(batch[|batch| - 1])]
  }

  /** Decodes a whole request list, failing if any request is not a modification. */
  function DecodeBatch(reqs: seq<Request>): Option<seq<Modify>>
  {
    if reqs == [] then Some([])
    else
      match (DecodeBatch(reqs[..|reqs| - 1]), FromRequest(reqs[|reqs| - 1]))
      case (Some(ms), Some(m)) => Some(ms + [m])
      case _ => None
  }

  // ---------------------------------------------------------------------------
  // Commands

  /** The request header Write and Reader both build from the client's context. */
  function BuildHeader(ctx: Context): (h: RequestHeader)
    ensures ContextOf(h) == ctx
  {
    RequestHeader(ctx.regionId, ctx.peer, ctx.regionEpoch, ctx.term)
  }

  /** The routing context a header carries. */
  function ContextOf(h: RequestHeader): Context
  {
    Context(h.regionId, h.regionEpoch, h.peer, h.term)
  }

  /** The command Write proposes for a batch. */
  function WriteCommand(ctx: Context, batch: seq<Modify>): (cmd: RaftCmdRequest)
    ensures ContextOf(cmd.header) == ctx
    ensures |cmd.requests| == |batch|
    ensures DecodeBatch(cmd.requests) == Some(batch)
  {
    TranslateDecodes(batch);
    RaftCmdRequest(BuildHeader(ctx), Translate(batch))
  }

  /** The single `Snap` request of a read. */
  const SnapCommand: Request := Request(CmdSnap, None, None, Some(SnapRequest))

  /** The command Reader proposes. */
  function ReadCommand(ctx: Context): (cmd: RaftCmdRequest)
    ensures ContextOf(cmd.header) == ctx
    ensures |cmd.requests| == 1
    ensures cmd.requests[0].cmdType == CmdSnap && cmd.requests[0].snap.Some?
    ensures cmd.requests[0].put.None? && cmd.requests[0].delete.None?
    ensures DecodeBatch(cmd.requests) == None
  {
    RaftCmdRequest(BuildHeader(ctx), [SnapCommand])
  }

  // ---------------------------------------------------------------------------
  // Write

  /**
   Write: propose the translated batch; a refusal by the router is returned as
   it is, otherwise the response is checked against the number of requests.
   */
  function Write(ctx: Context, batch: seq<Modify>, router: RaftCmdRequest -> Delivery): (r: Outcome<StorageError>)
    ensures router(WriteCommand(ctx, batch)).SendFailed? ==>
              r == Fail(ProposeFailed(router(WriteCommand(ctx, batch)).err))
    ensures router(WriteCommand(ctx, batch)).Delivered? ==>
              r == CheckResponse(router(WriteCommand(ctx, batch)).resp, |batch|)
    ensures r.Pass? <==>
              && router(WriteCommand(ctx, batch)).Delivered?
              && router(WriteCommand(ctx, batch)).resp.header.error.None?
              && |router(WriteCommand(ctx, batch)).resp.responses| == |batch|
  {
    var cmd := WriteCommand(ctx, batch);
    match router(cmd)
    case SendFailed(err) => Fail(ProposeFailed(err))
    case Delivered(resp, _) => CheckResponse(resp, |cmd.requests|)
  }

  // ---------------------------------------------------------------------------
  // Reader

  /** The handling of a delivered `Snap` response and its attached handle. */
  function HandleSnapResponse(resp: RaftCmdResponse, txn: Option<Txn>): (s: ReadStep)
    ensures s.result != Panic(WrongResponseCount)
    ensures CheckResponse(resp, 1).Fail? ==>
              s.result == ReadErr(CheckResponse(resp, 1).error) && (s.discarded <==> txn.Some?)
    ensures s.discarded ==> s.result.ReadErr?
    ensures s.result.ReadErr? <==> CheckResponse(resp, 1).Fail?
    ensures CheckResponse(resp, 1).Pass? && txn.None? ==> s == ReadStep(Panic(MissingSnapHandle), false)
    ensures CheckResponse(resp, 1).Pass? && txn.Some? &&
            (resp.responses[0].snap.None? || resp.responses[0].snap.value.region.None?) ==>
              s == ReadStep(Panic(SnapRegionMissing), false)
    ensures s.result.ReadOk? <==>
              && resp.header.error.None?
              && |resp.responses| == 1
              && txn.Some?
              && resp.responses[0].snap.Some?
              && resp.responses[0].snap.value.region.Some?
    ensures s.result.ReadOk? ==>
              s.result.reader == RegionReader(txn.value, resp.responses[0].snap.value.region.value)
  {
    match CheckResponse(resp, 1)
    case Fail(err) => ReadStep(ReadErr(err), txn.Some?)
    case Pass =>
      if txn.None? then ReadStep(Panic(MissingSnapHandle), false)
      else if |resp.responses| != 1 then ReadStep(Panic(WrongResponseCount), false)
      else
        match resp.responses[0].snap
        case None => ReadStep(Panic(SnapRegionMissing), false)
        case Some(snap) =>
          match snap.region
          case None => ReadStep(Panic(SnapRegionMissing), false)
          case Some(region) => ReadStep(ReadOk(RegionReader(txn.value, region)), false)
  }

  /**
   Reader: propose one `Snap` request; a refusal by the router is returned as it
   is, otherwise the delivered response and handle are handled as above.
   */
  function Reader(ctx: Context, router: RaftCmdRequest -> Delivery): (s: ReadStep)
    ensures router(ReadCommand(ctx)).SendFailed? ==>
              s == ReadStep(ReadErr(ProposeFailed(router(ReadCommand(ctx)).err)), false)
    ensures router(ReadCommand(ctx)).Delivered? ==>
              s == HandleSnapResponse(router(ReadCommand(ctx)).resp, router(ReadCommand(ctx)).txn)
    ensures s.result != Panic(WrongResponseCount)
  {
    match router(ReadCommand(ctx))
    case SendFailed(err) => ReadStep(ReadErr(ProposeFailed(err)), false)
    case Delivered(resp, txn) => HandleSnapResponse(resp, txn)
  }

  // ---------------------------------------------------------------------------
  // Lemmas

  /** Decoding the translation of a batch gives the batch back. */
  lemma {:induction false} TranslateDecodes(batch: seq<Modify>)
    ensures DecodeBatch(Translate(batch)) == Some(batch)
  {
    if batch != [] {
      var prefix := batch[..|batch| - 1];
      var reqs := Translate(batch);
      TranslateDecodes(prefix);
      assert reqs[..|reqs| - 1] == Translate(prefix);
      assert batch == prefix + [batch[|batch| - 1]];
    }
  }
}
