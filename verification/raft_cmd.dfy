/**
 The messages the raft storage facade builds and inspects: the request context
 coming from the key-value service, the upper layer's modifications, the raft
 command request with its header, and the raft command response with its
 per-request responses and the region error carried in its header.
 Every pointer-typed protobuf field that may be nil is an `Option`.
 */
module RaftCmd {
  import opened Wrappers

  /** An unsigned 64-bit protobuf integer; the facade only copies these. */
  type Uint64 = x: int | 0 <= x < 0x1_0000_0000_0000_0000

  type Byte = bv8
  type Bytes = seq<Byte>

  /** metapb.Peer: one replica of a region, placed on one store. */
  datatype Peer = Peer(id: Uint64, storeId: Uint64)

  /** metapb.RegionEpoch: configuration and range versions of a region. */
  datatype RegionEpoch = RegionEpoch(confVer: Uint64, version: Uint64)

  /** metapb.Region: the region descriptor a reader is bound to. */
  datatype Region = Region(
    id: Uint64,
    startKey: Bytes,
    endKey: Bytes,
    regionEpoch: Option<RegionEpoch>,
    peers: seq<Peer>)

  /** kvrpcpb.Context: the routing information of one client request. */
  datatype Context = Context(
    regionId: Uint64,
    regionEpoch: Option<RegionEpoch>,
    peer: Option<Peer>,
    term: Uint64)

  /** storage.Modify: one mutation of a write batch. */
  datatype Modify =
    | Put(cf: string, key: Bytes, value: Bytes)
    | Delete(cf: string, key: Bytes)

  /** raft_cmdpb.CmdType. */
  datatype CmdType = CmdInvalid | CmdGet | CmdPut | CmdDelete | CmdSnap

  datatype PutRequest = PutRequest(cf: string, key: Bytes, value: Bytes)
  datatype DeleteRequest = DeleteRequest(cf: string, key: Bytes)
  datatype SnapRequest = SnapRequest

  /** raft_cmdpb.Request: a command type and the payload fields that may be set. */
  datatype Request = Request(
    cmdType: CmdType,
    put: Option<PutRequest>,
    delete: Option<DeleteRequest>,
    snap: Option<SnapRequest>)

  /** raft_cmdpb.RaftRequestHeader. */
  datatype RequestHeader = RequestHeader(
    regionId: Uint64,
    peer: Option<Peer>,
    regionEpoch: Option<RegionEpoch>,
    term: Uint64)

  /** raft_cmdpb.RaftCmdRequest: one batch proposed as a single log entry. */
  datatype RaftCmdRequest = RaftCmdRequest(header: RequestHeader, requests: seq<Request>)

  /**
   The kind-specific part of errorpb.Error. The protobuf message has one
   optional field per kind, which could in principle be set together; this
   one-of shape is a simplification, harmless here because the facade only
   wraps the error and never looks inside it.
   */
  datatype RegionErrorDetail =
    | NotLeader(regionId: Uint64, leader: Option<Peer>)
    | RegionNotFound(regionId: Uint64)
    | KeyNotInRegion(key: Bytes, regionId: Uint64, startKey: Bytes, endKey: Bytes)
    | EpochNotMatch(currentRegions: seq<Region>)
    | StaleCommand
    | StoreNotMatch(requestStoreId: Uint64, actualStoreId: Uint64)
    | Unspecified

  /** errorpb.Error: a structured rejection carried in a response header. */
  datatype RequestError = RequestError(message: string, detail: RegionErrorDetail)

  /** raft_cmdpb.RaftResponseHeader. */
  datatype ResponseHeader = ResponseHeader(error: Option<RequestError>, currentTerm: Uint64)

  /** raft_cmdpb.SnapResponse. */
  datatype SnapResponse = SnapResponse(region: Option<Region>)

  /** raft_cmdpb.Response: only the snap payload is ever read by the facade. */
  datatype Response = Response(cmdType: CmdType, snap: Option<SnapResponse>)

  /** raft_cmdpb.RaftCmdResponse. */
  datatype RaftCmdResponse = RaftCmdResponse(header: ResponseHeader, responses: seq<Response>)
}
