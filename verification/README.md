# Raft storage facade: command translation and response checking

This project models the deterministic core of `RaftStorage`, the storage
engine of TinyKV that sends every write and every read through a region's raft
log. The model covers three parts:

- **Write-batch translation** (`Write`). An ordered batch of `Put{cf,key,value}` /
  `Delete{cf,key}` modifications becomes an ordered list of raft requests. The
  command gets a header copied from the client's `Context`. The router's answer
  is then checked against the number of requests.
- **Response validation** (`checkResponse`). An error in the response header
  becomes a `RegionError` that wraps exactly that error. If there is no header
  error, a wrong number of responses becomes a count-mismatch error. Otherwise
  the check succeeds.
- **Read-path outcome** (`Reader`). The reader proposes a single `Snap` request.
  It then either discards the attached transaction handle and returns an error,
  returns a region reader bound to the handle and the response's region, or panics.

The raft router and the blocking callback are one abstract input
`router: RaftCmdRequest -> Delivery`. Given the proposed command, it either
fails at once with `SendFailed(err)` (`SendRaftCommand` returned an error), or
`Delivered(resp, txn)` hands over the response that `WaitResp` returns,
together with the transaction handle the applier attached to the callback
(`cb.Txn`, which may be nil). Protobuf pointer fields that may be nil are
`Option`s, and 64-bit ids are a `Uint64` subset type.

Files:
- `wrappers.dfy`: `Option` and `Outcome`.
- `raft_cmd.dfy`: the messages (`Context`, `Modify`, `Request`, `RaftCmdRequest`,
  `RaftCmdResponse`, `errorpb.Error` as `RequestError`, `Region`, ...).
- `raft_storage.dfy`: the facade's logic.
- `raft_storage_proofs.dfy`: lemmas that relate several operations.

`FromRequest` / `DecodeBatch` are not in raft_server.go; raft_storage.dfy
defines them as a reference reading of a raft request as a modification, and they are strict about the payload
shape. Translation is proved against them: a request list decodes to a batch
exactly when it is that batch's translation.

## Behaviour notes

- The code accepts an empty batch. It proposes a command with no requests and expects zero responses.
- On the read path, the handle is discarded on any `checkResponse` error, including a count mismatch, and not only on a region error.
- A response-count mismatch is returned as an ordinary error. It is not a fatal abort.
- Once `checkResponse` passes, the read path never returns an error: a missing handle or a missing snap region is a panic, and the handle is not discarded.

## Model

| member | source | states |
|---|---|---|
| RaftStorage.CheckResponse | tinykv/kv/storage/raft_storage/raft_server.go:49-58 | a header error always gives a RegionError wrapping exactly that error; success iff there is no header error and the response count equals reqCount; otherwise a count-mismatch error carrying both counts |
| RaftStorage.ToRequest | tinykv/kv/storage/raft_storage/raft_server.go:87-105 | a Put becomes a CmdType_Put request and a Delete a CmdType_Delete request; reading the request back gives the same cf/key(/value) |
| RaftStorage.Translate | tinykv/kv/storage/raft_storage/raft_server.go:85-106 | one request per modification (same length), and the i-th request reads back as the i-th modification |
| RaftStorage.TranslateDecodes | tinykv/kv/storage/raft_storage/raft_server.go:85-106 | decoding the translated request list returns the original batch, in order |
| RaftStorage.BuildHeader | tinykv/kv/storage/raft_storage/raft_server.go:108-113 | the header carries exactly the context's RegionId, Peer, RegionEpoch and Term (the context is recoverable from it) |
| RaftStorage.WriteCommand | tinykv/kv/storage/raft_storage/raft_server.go:108-117 | the proposed write command has the context's header and as many requests as modifications, and its requests decode to the batch |
| RaftStorage.ReadCommand | tinykv/kv/storage/raft_storage/raft_server.go:132-144 | the read command has the context's header and exactly one request, of type Snap with a Snap payload and no Put or Delete payload, which is not a modification |
| RaftStorage.Write | tinykv/kv/storage/raft_storage/raft_server.go:118-123 | a send error is returned unchanged; otherwise the result is checkResponse of the response against the batch size; success iff delivered with no header error and one response per modification |
| RaftStorage.HandleSnapResponse | tinykv/kv/storage/raft_storage/raft_server.go:150-163 | an error is returned iff checkResponse fails, and then the handle is discarded iff one is attached; the handle is discarded only on an error; after a passed check a missing handle is the "can not found region snap" panic and a missing snap region is the nil-dereference panic, neither discarding; success iff no header error, one response, a handle, and a snap response with a region; the reader holds that handle and region; the wrong-count panic never happens |
| RaftStorage.Reader | tinykv/kv/storage/raft_storage/raft_server.go:138-163 | a send error is returned with nothing discarded; otherwise the delivered response and handle are validated against a count of 1; the wrong-count panic is unreachable |
| RaftStorageProofs.FromRequestExact | tinykv/kv/storage/raft_storage/raft_server.go:87-105 | a request reads as a modification iff it is exactly that modification's translation |
| RaftStorageProofs.TranslateAppend | tinykv/kv/storage/raft_storage/raft_server.go:85-106 | translating a concatenation is the concatenation of the translations, so order is kept |
| RaftStorageProofs.TranslatePointwise | tinykv/kv/storage/raft_storage/raft_server.go:86-105 | the i-th translated request is the translation of the i-th modification |
| RaftStorageProofs.DecodeBatchExact | tinykv/kv/storage/raft_storage/raft_server.go:85-106 | a request list decodes to a batch iff it is that batch's translation (both directions) |
| RaftStorageProofs.SameHeader | tinykv/kv/storage/raft_storage/raft_server.go:108-137 | Write and Reader build identical headers from the same context |
| RaftStorageProofs.RegionErrorPrecedence | tinykv/kv/storage/raft_storage/raft_server.go:49-52 | with a header error, checkResponse gives the same region error whatever the expected count |
| RaftStorageProofs.ReaderPanics | tinykv/kv/storage/raft_storage/raft_server.go:151-163 | Reader panics iff a delivered response passes checkResponse and either no handle is attached or the snap response has no region; a panic never discards the handle, and is the missing-handle panic iff no handle is attached |

## Left out

- `Raft` and `Snapshot` stream handlers (raft_server.go:166-188): gRPC stream I/O and a channel handoff to the snapshot worker.
- `Start`, `Stop` and `Client` (raft_server.go:191-236): worker goroutines, the wait group, starting the raftstore node and closing the engines all act on code that is not part of this model.
- `NewRaftStorage` (raft_server.go:61-76): it creates directories and opens the databases, which are filesystem side effects.
- `SendRaftCommand` and `cb.WaitResp()`: concurrent calls into the router. They are replaced by the abstract `router` input. Callback exactly-once delivery is the router's promise and is not modelled.
- `RegionError.Error()`: protobuf string formatting. `NewRegionReader` internals are not part of this model either. A reader is the pair (handle, region).
- The Go type switch in `Write` has no default branch, so data of any other dynamic type would be dropped silently. The storage package defines only `Put` and `Delete`, so `Modify` is a closed union here.
- A nil `ctx` makes `Write` and `Reader` panic when they read `ctx.RegionId` (raft_server.go:109 and :133). The model's `Context` is always present, so this panic is not modelled.
- A nil response header would make `checkResponse` dereference nil. The model's response always has a header.
- The `Get` and admin payloads of raft requests and responses: the facade never builds or reads them.
- Write ignores any handle delivered with a write response, and so does the model.
- Epoch checking, snapshot chunking and address resolution: none of these is implemented in this file.
