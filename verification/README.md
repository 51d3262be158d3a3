# A verified model of cpp-atmi

cpp-atmi wraps Oracle Tuxedo's C interface in C++ classes. This project models the parts of the
wrapper that have logic of their own -- the queue streams that export and import messages, the
fielded buffer and its fields, the retrying service call, and the settings and contexts of a
handle -- and proves what they guarantee.

For every input and every way the library may answer, and without any condition: what the export
writes and what the import stores (`ExportLosesNothing`, `ImportIsPrefixAtomic`), which exception
they throw (`ExportThrows`, `ImportThrows`), what the daemon conserves, termination, the
invisibility of timeouts, transaction bracketing, what the stream holds, the map that a
fielded buffer is, the carray, the service call, the TPQCTL flags, and the context of each call;
and, given a codec that can be undone, the transfer of a queue (`TransferOfAllLines`). The methods
compute their specified functions for every state in which their invariant holds. A result that
needs a condition -- a normal exit, no stale line, no failing reallocation -- says so in its row.

`dafny verify dfyconfig.toml` checks everything.

## How it is built

| file | content |
|---|---|
| `Atmi.dfy` | error codes, the exception hierarchy, `handle_tperrno`, `handle_diagnostics` |
| `TuxedoQueue.dfy` | the abstract library: one queue, one transaction, a script of replies, a record of calls and events |
| `QueueSpec.dfy` | the queue handle and both stream operators, as functions of that world |
| `Exceptions.dfy` | what queue operations return, and which exception leaves a stream operator |
| `Subsequences.dfy` | subsequences, for what is written or stored in part |
| `ExportTheorems.dfy`, `ExportRuns.dfy` | conservation, termination and regrowth of the export |
| `ExportTimeouts.dfy`, `ExportStream.dfy` | timeouts anywhere in a run; what a failing stream loses |
| `Bracketing.dfy` | a monitor for transaction bracketing, and its proof for both operators |
| `Framing.dfy` | lines and newlines; the stream that may fail |
| `ImportTheorems.dfy` | prefix atomicity of the import, and the round trip |
| `QueueStream.dfy`, `Daemon.dfy` | the handle, the stream and `qexport` as objects with loops, proved equal to the functions |
| `Fml.dfy`, `BufferSpec.dfy`, `FieldedBuffer.dfy` | the stored fields, what the wrapper does to them, and the objects |
| `CarraySpec.dfy`, `CarrayField.dfy` | the carray field with its backend |
| `TransactionCall.dfy` | the retry loop, the memory it sends from, `acall` |
| `QueueControl.dfy`, `Context.dfy` | the TPQCTL flags; which context a call runs in |

A library call is answered by the next reply of a finite script, and by success once the script
is used up. A run that ends has seen finitely many replies, so "for every script" means "for
every run". A failed commit may roll back, may leave the transaction open, or may have kept its
work all the same; a failed abort may leave the transaction open. Error numbers are those of
`atmi.h` and `fml32.h`, which the repository includes and does not contain; the proofs use only
that they differ, and that QMENOMSG is negative and is not -1.

## What does not hold as documented

The model follows the code. Where that breaks a promise, a lemma gives the input and the exact
condition:

* `dequeue` and `enqueue` return -1 without throwing on TPESVCFAIL, and `enqueue` on the
  diagnostic QMENOMSG, and nobody looks at that -1. The export then writes the content of its
  typed buffer as a line once more, and the import counts a message it has not stored
  (`PassIsStale`, `StoreIsSilent` for the exact input; `ServiceFailureWritesJunk`,
  `ServiceFailureRepeatsMessage`, `ServiceFailureLosesMessage` for runs). All other messages are
  still written, or stored, in order (`ExportLosesNothing`, `ImportIsPrefixAtomic`).
* A QMENOMSG for a queue that is not empty ends the export normally with messages left
  (`EndsInVain`, `NormalExportDrains`).
* The export does not look at the state of its stream: once the stream has failed, messages
  leave the queue and go nowhere (`ExportToStream`, `FailedStreamLosesMessages`).
* With the queue space or the queue name missing, the import leaves its transaction open
  (`MissingNameLeavesTransactionOpen`). Called inside a transaction of the caller, both
  operators abort that one (`CallersTransactionIsAborted`, `ImportInCallersTransaction`).
* A handle with a context of its own, used while another is current, opens its transaction in
  the other context and works outside it (`UnitOfWorkContexts`).
* `get_char_array` is documented to copy no more than the field's value; it copies up to the
  size of the backend, and makes that the field's length (`ReadIsValue`).
* A carray `get` of a missing occurrence throws without a backend and returns -1 with one
  (`GetAgreesWithBuffer`).
* After `pack`, an `add` fails unless the field costs no more than everything stored so far
  (`AddAfterPack`); a reallocation that fails leaves `_extent` changed until one succeeds
  (`ExtentTracksSize`).
* A retry in place may send something other than the request (`RetriesResendRequest`), and a
  call that throws may leave the wrapper with a freed buffer (`WrapperHoldsLiveBuffer`).
* `acall ( buffer )` may keep a user return code as call descriptor (`AcallDescriptor`).
* `set_flags`, `unset_flags` and `reset_flags` discard what they compute (`FlagsAreNeverSet`,
  `DiscardedFlags`), and so do `set_new_corrid` and `unset_corrid` for the flags.
  `encode_base64 ( true )` clears TPEX_STRING, the flag that asks for the string format.

## Model

| member | source | states |
|---|---|---|
| `Atmi.TperrnoClassification` | include/atmi/tuxedo.hpp:236-284 | TPESVCFAIL returns, with the user return code if that is positive and -1 otherwise; TPEBLOCK, TPGOTSIG, TPESVCERR and TPETIME each throw the class that stands for them and no other code does; every other code throws a plain tuxedo_exception; each exception carries its code |
| `Atmi.DiagnosticsClassification` | include/atmi/queue.hpp:245-280 | QMENOMSG returns, QMEABORTED throws the aborted_exception, and every other diagnostic a diagnostic_exception with the error code and the diagnostic, each in its place |
| `Exceptions.EnqueueReturns` | src/queue.cpp:66-91 | 0 if and only if the message was stored behind all others; -1 if and only if the library answered TPESVCFAIL or the diagnostic QMENOMSG; otherwise the exception of the error, or the atmi_exception for a missing name; nothing is stored unless it returns 0 |
| `Exceptions.DequeueReturns` | src/queue.cpp:138-167 | 0 if and only if the first message was taken; QMENOMSG if and only if the queue was empty or the library says so; -1 if and only if it answered TPESVCFAIL; otherwise the exception of the error, or the atmi_exception for a missing name; nothing is taken unless it returns 0 |
| `Exceptions.ExportThrows` | src/queue_stream.cpp:48-118 | for every schedule: an export that throws has ended with an abort, and throws the error of that abort if it failed, otherwise the exception that the call before it raised; the atmi_exception only if the names are missing; one that returns has ended with a commit that succeeded |
| `Exceptions.ImportThrows` | src/queue_stream.cpp:120-166 | for every schedule: an import that throws ends with an abort after a failed begin, enqueue or commit, with the same rule; or with the failed tpalloc or tpimport whose error it throws; or with a begin, throwing the atmi_exception for a missing name; one that returns has ended with a commit that succeeded, or with the tpalloc if there were no lines |
| `ExportTheorems.ExportLosesNothing` | src/queue_stream.cpp:48-118 | on every exit and for every schedule the queue is a tail of what it was, and the lines hold the exports of all messages gone, in order, overlapping the queue in at most one message, the last written, after a failed commit; the only other lines are the stale ones, each of which repeats the line just before it or, ahead of the first, writes the typed buffer as allocated; the lines are exactly the exports if and only if there are none |
| `ExportTheorems.PassIsStale` | src/queue_stream.cpp:68-100 | a pass writes one stale line if and only if the names are set, begin succeeds, the dequeue is answered TPESVCFAIL, the typed buffer is not empty and can be exported; otherwise none |
| `ExportTheorems.StaleLinesAreServiceFailures` | src/queue_stream.cpp:64-105 | the stale lines of an export are as many as the loop heads with that input; there are none unless a call is answered TPESVCFAIL |
| `ExportTheorems.ExportIsFaithful` | src/queue_stream.cpp:64-115 | the lines are exactly the exports of the messages gone, or in flight, if and only if no loop head has that input; a normal exit has nothing in flight |
| `ExportTheorems.ServiceFailureWritesJunk` | src/queue_stream.cpp:52-100 | one TPESVCFAIL on an empty queue writes the uninitialised typed buffer, of the stream's buffer size, as a line, and the export ends normally |
| `ExportTheorems.ServiceFailureRepeatsMessage` | src/queue_stream.cpp:64-105 | after a message has been exported, it writes that message a second time |
| `ExportRuns.ExportTerminates` | src/queue_stream.cpp:64-105 | at most one transaction for each message, one for each timeout or service failure, and one more |
| `ExportRuns.NormalExportDrains` | src/queue_stream.cpp:64-108 | an export that returns normally has emptied the queue if and only if no pass committed after a QMENOMSG for a queue that was not empty (it did not end early), as none does if QMENOMSG is only answered for an empty queue; and then it has written the whole queue in order, once each, plus exactly the stale lines |
| `ExportTimeouts.TimeoutsAreInvisible` | src/queue_stream.cpp:64-105 | for every script: without the replies of all timed-out passes, wherever they came, no pass times out and lines, queue and outcome of the export are the same |
| `ExportRuns.TimeoutIsInvisible` | src/queue_stream.cpp:102-104 | at any loop head, the replies begin, TPETIME, abort lead back to that head |
| `ExportRuns.RegrowthSuffices` | src/queue_stream.cpp:74-94 | a message is exported if and only if it fits and the first call succeeds, or that call reports TPELIMIT, the second succeeds, and twice the size suffices or the library reported the size |
| `ExportRuns.QuietExport` | src/queue_stream.cpp:62-108 | with no failing call the export succeeds if and only if every message fits the doubled buffer, and then writes the whole queue |
| `Bracketing.ExportIsBracketed` | src/queue_stream.cpp:64-116 | no queue operation or write outside the export's own transaction, one commit or abort attempt for each, no abort straight after a write; a transaction is open on exit only if the last abort failed and left it so |
| `Bracketing.CallersTransactionIsAborted` | src/queue_stream.cpp:110-115 | inside a caller's transaction the export takes and writes nothing, throws, and aborts that transaction |
| `Bracketing.ImportIsBracketed` | src/queue_stream.cpp:132-163 | the same for the import; a transaction is open on exit if and only if the input is the one that leaks it, or the last abort failed and left it open |
| `Bracketing.MissingNameLeavesTransactionOpen` | src/queue_stream.cpp:120-163 | the uncaught exception is thrown, and the transaction left open with nothing stored, if and only if a name is missing, no transaction is open, a first line can be imported, and tpalloc, tpimport and tpbegin succeed |
| `Bracketing.ImportInCallersTransaction` | src/queue_stream.cpp:140-163 | inside a caller's transaction the import stores nothing, and throws and aborts that transaction as soon as it comes to store a line |
| `Framing.FramingInverts` | src/queue_stream.cpp:96-132 | getline recovers the written lines if and only if none of them holds a newline |
| `Framing.FrameOfLines` | src/queue_stream.cpp:132 | writing the lines that getline delivers gives the text back, up to a missing last newline |
| `Framing.StreamHolds` | src/queue_stream.cpp:96-100 | a stream holds the first lines it was given, and all of them if and only if it did not fail before the last |
| `ExportStream.ExportToStream` | src/queue_stream.cpp:64-115 | on every exit the stream holds a first part of the lines written, all of them if and only if it took as many as there were; without stale lines these are the exports of a first part of the messages removed or shown |
| `ExportStream.FailedStreamLosesMessages` | src/queue_stream.cpp:64-108 | an export that returns normally and did not end early has emptied the queue whatever became of the stream; without stale lines the stream has it all if and only if it took a line for each non-empty message |
| `ExportStream.QuietExportToStream` | src/queue_stream.cpp:62-108 | the same on inputs alone: no failing call, and messages that fit |
| `ImportTheorems.ImportIsPrefixAtomic` | src/queue_stream.cpp:120-166 | on every exit and for every schedule the queue is what it was, followed by decoded lines only: in order, those of the first `_count` lines (one more if a failing commit kept its work), less one for each silent enqueue; exactly those if and only if there was none; a normal exit has counted every line |
| `ImportTheorems.StoreIsSilent` | src/queue_stream.cpp:140-146 | a message is counted without being stored if and only if the names are set, no transaction is open, begin and commit succeed and the enqueue is answered TPESVCFAIL or the diagnostic QMENOMSG |
| `ImportTheorems.SilentPutsAreServiceFailures` | src/queue_stream.cpp:132-156 | the silent enqueues of an import are as many as its lines with that input; there are none unless a call is answered TPESVCFAIL or the diagnostic QMENOMSG |
| `ImportTheorems.ImportIsFaithful` | src/queue_stream.cpp:132-156 | the queue has grown by exactly the decoded first lines if and only if no line has that input; a normal exit has taken every line |
| `ImportTheorems.ServiceFailureLosesMessage` | src/queue.cpp:82-91 | one TPESVCFAIL makes the import count a line, end normally and lose its message |
| `ImportTheorems.ExportThenImport` | src/queue_stream.cpp:48-166 | with a codec that can be undone, no stale line and no silent enqueue, and whatever else fails on either side, the second queue receives a first part of the non-empty messages the export removed or showed, in order; the whole queue if neither side throws and the export did not end early |
| `ImportTheorems.TransferOfAllLines` | src/queue_stream.cpp:48-166 | with a codec that can be undone and for every schedule on both sides, the second queue receives, in order, what the first lines written decode to, less one message for each silent enqueue; among what all lines decode to are all non-empty messages removed or shown, in order |
| `ImportTheorems.QuietTransfer` | src/queue_stream.cpp:48-166 | with no failing call and messages that fit, export then import moves the whole queue and neither side throws |
| `QueueStream.Queue.Dequeue` | src/queue.cpp:138-167 | 0 with the message taken, QMENOMSG for an empty queue, the exception of the error, or -1 for the one error that no handler throws for; the typed buffer is left alone when nothing is taken |
| `QueueStream.Queue.Enqueue` | src/queue.cpp:66-91 | 0, the exception of the error, or -1 for the two errors that no handler throws for |
| `QueueStream.QueueStream.ExportMessage` | src/queue_stream.cpp:74-94 | the first `s` bytes of the buffer are the export string, in the old buffer or in one of twice the size, and the buffer never falls below the stream's size |
| `QueueStream.QueueStream.Export` | src/queue_stream.cpp:48-118 | world, stream, count and exception are those of the specified export, for every buffer size, with both names to be set and the codec of the stream's flags |
| `QueueStream.QueueStream.Import` | src/queue_stream.cpp:120-166 | world, count and exception are those of the specified import of the stream's lines, with both names to be set and the codec of the stream's flags; a normal exit has read the stream to its end |
| `Daemon.Run` | utls/qexport.bcl:24-73 | world, stream and exception are those of the rounds, one without daemon mode; the counter is the number of lines of all rounds although `_count` is reset in each, leaving out those of a round that threw |
| `Daemon.DaemonIsReadable` | utls/qexport.bcl:41-58 | without stale lines and with a codec that can be undone: however the daemon ends, a reader of the text finds as many lines as were written, and they decode to exactly the non-empty messages gone from the queue or shown |
| `Daemon.DaemonConserves` | utls/qexport.bcl:41-58 | however it ends: of everything queued, or arrived before the rounds that were begun, what is left is a tail, and the rest was written in order, once each, plus exactly the stale lines of those rounds, overlapping the queue in at most one message when a round threw; the daemon throws what that round threw; if all rounds return, the queue is empty if and only if the last did not end early |
| `Fml.FieldCountIsSum` | src/buffer.cpp:144-179 | the field count is the sum of the occurrence counts over any distinct list of fields that covers the buffer |
| `BufferSpec.StoredIsCString` | include/atmi/string_field.hpp:213-236 | a string is stored up to and with its first NUL, any other value as it is |
| `BufferSpec.AddRefines` | include/atmi/template_field.hpp:115-134 | an add appends one value to one field, changes no other, and reports its index; an add that throws stores nothing |
| `BufferSpec.AddOutcome` | include/atmi/string_field.hpp:213-236 | which of its four outcomes an add has, from the value and the buffer before it: an empty string or carray throws the atmi_exception and touches nothing; a guarded add extends the buffer by `_extent`, or throws the library's error; then it stores the value if and only if there is room, and adds exactly its cost |
| `BufferSpec.AddThenGet` | include/atmi/string_field.hpp:213-262 | what was added is read back at that index by any field of the kind -- a string if and only if it holds no NUL |
| `BufferSpec.OneExtensionIsEnough` | include/atmi/string_field.hpp:216-229 | an add fails for space if and only if the guard extended the buffer and that was too little; never if needed() is at most `_extent`, never if the guard let it through |
| `BufferSpec.AddAfterPack` | src/buffer.cpp:85-99 | after a pack an add succeeds if and only if the field costs at most what is stored |
| `BufferSpec.SetFrame` | include/atmi/template_field.hpp:103-113 | set succeeds if and only if there is room for the difference to the old value or, past the end, for the value and the null values before it; it changes its own occurrence only, fills up with null values past the end, and changes nothing when it throws |
| `BufferSpec.SetSucceeds` | include/atmi/template_field.hpp:103-113 | a set that succeeds adds exactly those bytes; the one exception it throws is FNOSPACE |
| `BufferSpec.RemoveFrame` | src/field.cpp:111-119 | remove takes out its own occurrence, shifts the later ones down, leaves other fields alone, and throws if and only if there is none |
| `BufferSpec.BufferRefinesMap` | src/buffer.cpp:68-142 | any interleaving of adds, sets, removes and packs, some failing, leaves what the same operations leave in a map from fields to value sequences |
| `BufferSpec.GetReturnsIthAdded` | include/atmi/template_field.hpp:115-139 | after any adds on any fields, get(f, i) is the i-th value added to f, or the first for a negative i; if there was none it throws FNOTPRES and keeps the value |
| `BufferSpec.ExtentTracksSize` | src/buffer.cpp:85-99 | after any run, with any reallocations failing, `_extent` equals the allocated size if and only if the last one asked for was granted or asked for the size held, or none was asked for and they were equal at the start |
| `BufferSpec.ExtentIsSize` | src/buffer.cpp:85-99 | so it does through every run without a failing reallocation |
| `BufferSpec.GrowthIsAmortised` | src/buffer.cpp:90-99 | over any adds, sets and removes between two packs, from an `_extent` that is the size and with no reallocation failing: k extensions multiply the size by 2^k, move fewer bytes than the buffer then has, and leave it at most twice what the last one had to fit |
| `FieldedBuffer.Buffer.Pack` | src/buffer.cpp:85-94 | `_extent` and the size become the bytes in use (only `_extent` if the reallocation fails); the stored fields stay |
| `FieldedBuffer.Buffer.FieldCount` | src/buffer.cpp:176-179 | the sum of the occurrence counts |
| `FieldedBuffer.Tfield.Add` | include/atmi/string_field.hpp:213-236 | buffer, field and exception are those of the specified add |
| `FieldedBuffer.Tfield.Get` | include/atmi/string_field.hpp:243-262 | throws if and only if there is no such occurrence, and then keeps the value; else the value is the stored one, a string up to its NUL; the occurrence moves either way |
| `FieldedBuffer.Tfield.Set` | include/atmi/string_field.hpp:201-211 | throws if and only if there is no room for what it adds, and then nothing changes; else an existing occurrence becomes the field's value, or the field is filled up with null values to it; no other field changes; the buffer stays ordered and within its size |
| `FieldedBuffer.Tfield.Remove` | src/field.cpp:111-119 | throws if and only if there is no such occurrence; else exactly that one is gone and no other field changes; the buffer stays ordered and within its size |
| `CarraySpec.HistoryKeepsValid` | include/atmi/carray_field.hpp:85-136 | after any history 0 <= `_length` <= `_buffer_size`, and a size above 0 has a live backend of that size |
| `CarraySpec.GetAgreesWithBuffer` | include/atmi/carray_field.hpp:232-300 | after any history a get that returns other than -1 holds exactly the stored occurrence, on all paths; the truncation branch is unreachable; when it throws, and when it returns -1, which keeps the value |
| `CarraySpec.ReadIsValue` | include/atmi/carray_field.hpp:103-115 | the copy is as long as the smaller of the size and the backend, and is the promised part of the value if and only if the size is at most the length or the value fills its backend |
| `CarraySpec.FreedIsFresh` | include/atmi/carray_field.hpp:128-136 | a freed field reads as nothing, and the next get finds any stored occurrence |
| `CarraySpec.SetThenRead` | include/atmi/carray_field.hpp:85-115 | assigning and reading with enough room gives the value back if and only if the size is exact or no longer value left a larger backend |
| `CarraySpec.AddThenGet` | include/atmi/carray_field.hpp:186-300 | a value added by one carray field is what another gets, whatever that one's history |
| `CarrayField.Tcarray.SetCharArray` | include/atmi/carray_field.hpp:85-101 | a longer value gets a backend of its size, another overwrites the front of the old one; the invariant holds |
| `CarrayField.Tcarray.GetCharArray` | include/atmi/carray_field.hpp:111-115 | the smaller of both sizes is copied and becomes the length; the rest of the caller's array is untouched |
| `CarrayField.Tcarray.Get` | include/atmi/carray_field.hpp:232-300 | state, return code and exception of the three-path get for every buffer and occurrence; the invariant holds |
| `CarrayField.Tcarray.Add` | include/atmi/carray_field.hpp:186-213 | buffer, occurrence and exception of an add of the first `_length` bytes; an empty carray throws; the carray stays as it was |
| `TransactionCall.Transaction.Call` | src/transaction.cpp:24-63 | stops at the first success or after max(1, retries + 1) attempts; sleeps `delay` for each timeout or service error; returns 0 if and only if the last attempt succeeded, the user return code of a TPESVCFAIL if that is positive and -1 if not, and throws the exception of any other error; hands out the return code of a success only |
| `TransactionCall.RetriesResendRequest` | src/transaction.cpp:32-84 | every attempt sends the original bytes if and only if input and output do not alias or no attempt but the last disturbs them |
| `TransactionCall.WrapperHoldsLiveBuffer` | src/transaction.cpp:65-75 | after a call that returns the wrapper holds the last attempt's buffer; after one that throws its old pointer is live if and only if nothing moved |
| `TransactionCall.AcallDescriptor` | src/transaction.cpp:86-138 | the descriptor kept is the one given, except for TPESVCFAIL with a positive return code, which is kept in its place |
| `QueueControl.Handle.constructor` | src/queue.cpp:25-43 | a new handle shows: waiting, default quality of service, a reply queue if named |
| `QueueControl.Handle.Perform` | src/queue.cpp:182-248 | after any sequence of setters, some rejected, the flags encode the record and both quality levels agree |
| `QueueControl.LastSettingWins` | src/queue.cpp:182-233 | in that record only the last setting of each kind counts; a quality of service other than the three leaves its bits unset, and the level is that of the last one accepted |
| `QueueControl.Decode` | include/atmi/queue.hpp:204-206 | the flags determine every setting and all other flags |
| `QueueControl.UnsetIsDifference` | src/tuxedo.cpp:141-146 | unset clears exactly its mask if and only if the flags are not negative |
| `QueueControl.Tuxedo.Perform` | include/atmi/tuxedo.hpp:181-198 | any history of set_flags, unset_flags and reset_flags does to the flags what the three are specified to do, one by one |
| `QueueControl.FlagsAreNeverSet` | include/atmi/tuxedo.hpp:181-198 | no history of these calls puts a flag on a handle: the flags stay what they were until the first reset_flags, and TPNOFLAGS ever after |
| `QueueControl.DiscardedFlags` | include/atmi/tuxedo.hpp:181-198 | one such call does what it is documented to do if and only if there was nothing to do |
| `Context.CallsRunInOwnContext` | src/tuxedo.cpp:114-132 | for any handles and any interleaving, set_context among the operations, every entry of the log is the call of one operation, and runs in the context last set on its handle before it, if it is a service call or queue operation and there is one |
| `Context.ContextIsLastSwitch` | src/tuxedo.cpp:69-132 | for any handles, any interleaving and any refused switches, every call that reaches the library, begin, commit and abort too, runs in the context of the last service call or queue operation up to it whose handle has a context |
| `Context.ContextIsLastSet` | include/atmi/tuxedo.hpp:157-169 | after any operations a handle's context is that of the last set_context on it, or the one it had, which is none for a new handle |
| `Context.ThrowsBeforeReaching` | src/tuxedo.cpp:114-132 | an operation that throws has changed nothing, throws if and only if a switch it needs is refused, and throws the error of the call that refused |
| `Context.ThrownCallsLeaveNoTrace` | src/tuxedo.cpp:114-132 | leaving all operations that throw out of a run changes nothing about where it ends and what reached the library, and then none throws |
| `Context.UnitOfWorkContexts` | src/tuxedo.cpp:69-132 | of n units of work of one handle, whose switches are granted, only the first begin can run outside the handle's own context; all calls share a context if and only if the handle has none of its own or was already in it |

## Left out

- Other clients of the queue: while an export or import runs, nobody else enqueues or dequeues; messages arrive between the rounds of the daemon.
- Contexts inside the stream operators: the queue model has one context; `Context` treats a transaction that spans two on its own.
- The `tpexport` format: an abstract codec; the round trip asks that it can be undone and writes no newline.
- A write that fails half-way: a stream that fails does so between lines.
- Freeing of buffers: the export frees its typed buffer and its stream buffer on most paths, and leaks them when an abort throws; ownership is not tracked.
- FieldedBuffer.Buffer.Resize: called by the user with a size below what is in use, it keeps the stored fields in the model; what the library then does is unknown.
- `tpalloc` sizes: a new fielded buffer has exactly the size asked for, and room for at least its header.
- Fml: the layout of a stored field is a prefix and a value padded to four bytes, in a buffer with a header of at least four; null values are an empty string, zero bytes or nothing.
- FML errors other than "no space" and "not present": field identifiers are known, types match, and the buffer is aligned; a negative occurrence is not present for `Fget32`.
- The carray index operator: it builds an exception and does not throw it, so its result outside the value is undefined.
- `reply` and `cancel`: single forwarded calls.
- `set_new_corrid`: the identifier itself, made of process, thread and time.
- Names of queues and reply queues: only whether they are set.
- The length limit on service names, and a buffer that comes back with another type from `reply`.
- Construction and authentication of clients, message catalogues, logging, option parsing, printing, checksums.
