# webfuse benchmark provider — a verified model

The benchmark provider answers the filesystem requests of a remote webfuse
mount point over one websocket connection. It serves a fixed read-only tree:
the root directory (inode 1) holding one regular file, `file.bin` (inode 2),
of 2048 bytes, all zero. This project models, in Dafny, the two parts of the
provider that decide behaviour:

- the five operation handlers (`on_lookup`, `on_getattr`, `on_readdir`,
  `on_open`, `on_read`). Each answers its request with exactly one
  `wfp_respond_*` call, so each handler is a function (or, for readdir, a
  method) that returns one value of `Protocol.Response`, whose constructors
  are those calls;
- the shutdown flag of the process (`on_shutdown_requested`,
  `on_disconnected`) and the service loop it guards
  (`while (!is_shutdown_requested) lws_service(context, 0);`).

Modules, one per component:

- `Primitives` (primitives.dfy): the C integer types (`ino_t` and `size_t` as
  64-bit unsigned, the handle as `uint32_t`, flags and signal numbers as
  `int`), `Option`, `Min`/`Max`.
- `Protocol` (protocol.dfy): the part of `struct stat` a handler sets (inode,
  `st_mode` as a 32-bit vector, size; every other field is zero from the
  memset), the POSIX mode bits, directory entries, the three status codes
  (`WFP_BAD`, `WFP_BAD_NOENTRY`, `WFP_BAD_ACCESS_DENIED`) and `Response`.
- `FileTree` (file_tree.dfy): a reference semantics of lookup, getattr,
  readdir, open and read over ANY inode tree (a map from inode to node), with
  a well-formedness predicate, written without the provider's constants. It is
  the independent definition the handlers are proved to agree with.
- `Provider` (provider.dfy): the handlers with the constants of src/main.c
  (`FILE_INODE` 2, `FILE_NAME` "file.bin", `FILE_SIZE` 2048, permissions 0644,
  handle 42), the directory buffer as a class that readdir appends to, and
  lemmas about reads.
- `Conformance` (conformance.dfy): the served tree as a `FileTree.Tree`, its
  well-formedness, and one lemma per handler stating that the handler returns
  exactly what the reference semantics returns on that tree. For readdir,
  which is a method, `ReaddirConforms` equates the reference listing with the
  literal answer that the ensures of `Provider.Readdir` give.
- `Shutdown` (shutdown.dfy): the flag and the cancel side effect as a value
  (`Control`) with one step function per callback, traces of callbacks
  (`Replay`), service calls (`Feed`, `ServiceRun`), and the class `Process`
  whose methods update the flag in place and run the loop.

Where the documented behaviour of these operations and the code differ, the model follows the code:

- a lookup that does not resolve answers with the generic `WFP_BAD`, not with
  "no such entry" (src/main.c:74);
- the root's attributes have size 0 only because the structure was cleared
  and `st_size` is never set (src/main.c:86-93); the root's permissions are
  the same 0644 as the file's, without execute bits;
- readdir adds "." and ".." naming the requested inode before it checks that
  inode, so for a missing directory the buffer is filled and then discarded
  (src/main.c:113-125); `Provider.Readdir` returns those discarded entries as
  `disposed`;
- the interrupt handler cancels the service on every call, also when the flag
  is already set: the flag is idempotent, the cancel is not (src/main.c:27-32).

The cancel call `lws_cancel_service` is represented by the counter `cancels`.
A service call `lws_service` is represented by the batch of callbacks it
delivers; the environment (the network, the signal) is the input sequence of
batches.

## Model

| member | source | states |
|---|---|---|
| Protocol.MakeMode | src/main.c:68 | the bitwise or of permissions and a file-type bit is a mode from which the node kind and the permission bits both read back unchanged |
| FileTree.Attributes | src/main.c:62-69 | the attributes of a node carry its inode, a mode announcing its kind and permissions, its data length as size for a file and 0 for a directory |
| FileTree.FindChild | src/main.c:65 | the first entry of that name: none exactly when no entry has the name, otherwise the returned inode is that of an entry with the name before which no entry has it |
| FileTree.LookupSucceedsIffChild | src/main.c:65-75 | where entries resolve, lookup succeeds iff the parent is a directory holding the name, and then answers with the attributes of the node an entry of exactly that name in the parent points to |
| FileTree.ListedNameResolves | src/main.c:113-126 | where entries resolve and names are unique, every name a listing gives after "." and ".." is resolved by lookup in that directory to the node listed with it |
| FileTree.ResolvedNameListed | src/main.c:65-75 | every name lookup resolves in a directory is listed by readdir of that directory, with the inode lookup answered |
| FileTree.ReaddirShape | src/main.c:113-126 | on a well-formed tree readdir succeeds iff the inode is a directory; the listing is "." (itself), ".." (its parent, a directory) and then exactly the directory's children in order, each with a valid name that resolves |
| FileTree.ReadWithinBounds | src/main.c:164-174 | a reference read succeeds iff the inode is a regular file and returns exactly `min(length, max(0, size - offset))` bytes: the data from `offset` when `offset` is inside it and nothing from the end on |
| Provider.FileStat | src/main.c:66-69 | the file's attributes: inode 2, regular file, permissions 0644, size 2048 |
| Provider.RootStat | src/main.c:90-93 | the root's attributes: inode 1, directory, permissions 0644, size 0 (left from the memset) |
| Provider.Lookup | src/main.c:65-75 | lookup succeeds iff the parent is 1 and the name is exactly "file.bin", with the file's attributes; every other request is `WFP_BAD`, never `WFP_BAD_NOENTRY` |
| Provider.Getattr | src/main.c:88-104 | inode 1 has the root's attributes, inode 2 the file's, every other inode is `WFP_BAD_NOENTRY`; a success reports the inode asked for |
| Provider.Open | src/main.c:140-150 | inode 1 is `WFP_BAD_ACCESS_DENIED`, inode 2 opens with handle 42 whatever the flags, every other inode is `WFP_BAD_NOENTRY`, each in both directions |
| Provider.ReadCount | src/main.c:166-167 | the count is `min(length, max(0, 2048 - offset))`: never more than asked for, never past the end, 0 from the end on, and as large as both bounds allow |
| Provider.Read | src/main.c:164-174 | a read succeeds iff the inode is 2; it returns `ReadCount(offset, length)` bytes, exactly `contents[offset..]` of that length inside the file and nothing (a success) past it; other inodes are `WFP_BAD_NOENTRY` |
| Provider.DirBuffer.constructor | src/main.c:113 | a fresh directory buffer is empty |
| Provider.DirBuffer.Add | src/main.c:114-115 | adding appends exactly one entry at the end and keeps the others |
| Provider.Readdir | src/main.c:113-128 | readdir(1) answers with exactly ".", "..", "file.bin" naming inodes 1, 1, 2 in that order; any other inode is `WFP_BAD_NOENTRY`; the buffer always starts with "." and ".." naming the requested inode, and a success answers with the buffer as built |
| Provider.ReadExamples | src/main.c:166-169 | a read of 100 bytes at 2040 returns the last 8 bytes; a read of 50 bytes at 3000 is an empty success |
| Provider.ReadIgnoresHandle | src/main.c:162 | the handle passed to a read has no influence on the response |
| Provider.ServedBytesAreZero | src/main.c:180-181 | with the zero-filled buffer set up at start, every byte a read returns is 0 |
| Provider.ConsecutiveReads | src/main.c:166-169 | a read followed by a read from where it ended returns the same bytes as one read of the combined length |
| Conformance.ServedTreeWellFormed | src/main.c:10-12 | the served tree (root 1 holding "file.bin" as inode 2) is well formed: entries resolve, names are unique, and every node but the root is listed by its parent |
| Conformance.LookupConforms | src/main.c:65-75 | the lookup handler answers exactly as the reference lookup on the served tree |
| Conformance.GetattrConforms | src/main.c:88-104 | the getattr handler answers exactly as the reference getattr on the served tree |
| Conformance.ReaddirConforms | src/main.c:117-126 | the reference readdir on the served tree is the answer `Provider.Readdir` gives: the root listing for 1, `WFP_BAD_NOENTRY` otherwise |
| Conformance.OpenConforms | src/main.c:140-150 | the open handler answers exactly as the reference open on the served tree, with handle 42 |
| Conformance.ReadConforms | src/main.c:164-174 | the read handler answers exactly as the reference read (`min(length, max(0, size - offset))` bytes) on the served tree |
| Shutdown.SignalStep | src/main.c:27-32 | the interrupt handler leaves the flag set and cancels the service once more |
| Shutdown.DisconnectStep | src/main.c:42-53 | a disconnect leaves the flag set; if shutdown was already requested nothing changes, otherwise the service is cancelled once |
| Shutdown.Step | src/main.c:27-53 | after any callback the flag is set iff it was set or the callback is an interrupt or a disconnect; it never goes back; setting it always comes with exactly one cancel |
| Shutdown.SignalIdempotent | src/main.c:27-32 | a second shutdown request leaves the flag as the first did and only adds one cancel |
| Shutdown.DisconnectIdempotent | src/main.c:47-52 | a second disconnect changes nothing |
| Shutdown.ReplayFlag | src/main.c:27-53 | after any callbacks, shutdown is requested iff it was before or one of them is an interrupt or a disconnect |
| Shutdown.ReplayCancels | src/main.c:27-53 | after any callbacks the cancels added are one per interrupt, plus one when no shutdown was requested at the start and the first request among the callbacks is a disconnect |
| Shutdown.FlagStaysSet | src/main.c:30 | once set, the flag stays set through any callbacks |
| Shutdown.UnrequestedDisconnectCancelsOnce | src/main.c:47-52 | without interrupts, one or more disconnects from an unrequested state set the flag and cancel the service exactly once |
| Shutdown.RequestedShutdownWasCancelled | src/main.c:30-31 | from the initial state, whenever the flag is set the service has been cancelled at least once |
| Shutdown.ServiceRunStopsAtRequest | src/main.c:218-221 | the loop makes a service call only while the flag is clear, stops after the first call that leaves it set, and its final state is that of the calls it made |
| Shutdown.FeedFlatten | src/main.c:218-221 | a sequence of service calls has the effect of delivering all their callbacks in order |
| Shutdown.FeedRequestedWasCancelled | src/main.c:218-221 | after any service calls from the initial state, a requested shutdown has cancelled the service |
| Shutdown.Process.constructor | src/main.c:24 | the flag starts cleared, with nothing cancelled |
| Shutdown.Process.CancelService | src/main.c:31 | a cancel is counted and leaves the flag alone |
| Shutdown.Process.OnShutdownRequested | src/main.c:27-32 | the handler updates the process state as `SignalStep` says |
| Shutdown.Process.OnDisconnected | src/main.c:42-53 | the handler updates the process state as `DisconnectStep` says |
| Shutdown.Process.Dispatch | src/main.c:186-192 | one callback updates the process state as `Step` says; connects and filesystem requests leave it alone |
| Shutdown.Process.Service | src/main.c:220 | one service call updates the state as its callbacks, replayed in order, do |
| Shutdown.Process.RunServiceLoop | src/main.c:218-221 | the loop ends in the state and after the number of service calls that `ServiceRun` gives |
| Shutdown.Run | src/main.c:217-221 | from a cleared flag, the loop exits with the flag set or with every service call made, and a set flag has always come with a cancel |

## Left out

- Network I/O and the websocket library: context and vhost creation, the port
  lookup, the URL, `lws_service` and `lws_cancel_service` internals
  (src/main.c:195-215). A service call is the batch of callbacks it delivers;
  a cancel is a counter.
- The webfuse libraries (`wfp_respond_*`, `wfp_dirbuffer_*`, the client
  configuration, the server protocol, the connect call): their framing,
  correlation ids and enforcement of one response per request are not in the
  modelled source, so no dispatcher is modelled. That each handler answers
  exactly once is captured by each handler returning exactly one `Response`.
- `Provider.DirBuffer.Add`: does not model the library's own policy for empty
  names, because its source is not part of this model; all names added here
  are non-empty.
- `create_mountpoint` (src/main.c:14-21): a wrapper over the server library
  with a fixed path that ignores its arguments.
- Signal installation, `puts`/`fprintf` logging (so `on_connected` has no
  effect in the model), allocation and release of the contents buffer, and
  the disposal order at the end of `main`.
- `Shutdown.Process.RunServiceLoop`: the real loop runs until the flag is set,
  for as long as that takes; the model runs over a finite sequence of service
  calls and also stops when they are used up, because an unbounded loop
  cannot be verified to terminate.
- The out-of-bounds pointer `&contents[offset]` past the end of the file
  (src/main.c:169) is handed over with a count of 0; the model returns an
  empty byte sequence.
- The fields of `struct stat` other than inode, mode and size: they are zero
  from the memset and are not represented. `st_size` is an unbounded natural;
  the values used (0 and 2048) are far inside `off_t`.
- Concurrency between the interrupt handler and a running service call: the
  interrupt is one of the callbacks a service call delivers, at a point
  between two other callbacks.
