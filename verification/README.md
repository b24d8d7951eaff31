# A verified model of the controller server and its RustDesk libraries

The repository is a Tauri application that turns UDP packets of remote game
controllers into reports for a virtual bus, together with two vendored RustDesk
libraries: `hbb_common` (file transfer, framed and encrypted streams, address
mangling, version numbers) and `scrap` (codec negotiation, recording, display
lists, image handling). This project models the parts of it that decide
something, in Dafny, and proves what they promise. `dafny verify dfyconfig.toml`
checks everything.

| file | models | main results |
|---|---|---|
| `BytesCodec.dfy` | the resumable frame decoder and the encoder | decoding depends only on the concatenated bytes; encode and decode are inverse for every way of cutting the stream |
| `SecureStream.dfy` | the counter-nonce cipher over the codec | over every run of sends, deliveries and receives each accepted message arrives once and in order, and everything opens if and only if nothing was sent after a message too big for a frame; exactly when nonces are distinct, in one direction and in both |
| `AddrMangle.dfy` | packing of addresses into a 128-bit number | round trip if and only if nothing is lost that has no room on the wire; no overlap, no underflow, no confusion of the forms |
| `Version.dfy` | version strings as 64-bit numbers | order is kept if and only if there are at most six components |
| `FileTransfer.dfy` | the transfer job and its operations | each method against its step function, for every split of the reads |
| `TransferProtocol.dfy` | runs of a sender and a receiver | end to end: sent files arrive exactly; block counts, sizes, digests, progress, completion |
| `TransferRuns.dfy` | a pass over all jobs; a transfer from start to end | a pass drops exactly the jobs that are complete; a driven transfer ends with every file in place |
| `ControllerServer.dfy` | the UDP server's slots under all interleavings | input safety of every session, the slot table, exactly the chosen packets reach the bus; when the list of clients is right, and what a sweep or a stop does that other steps interrupt |
| `Negotiation.dfy` | the choice of codec | after every history that does not end with a fallback of the caller the codec is one that every peer decodes (VP9 excepted), and exactly which formats can come out |
| `Recorder.dfy` | recording into files | every file is well formed over every run; exactly which frames of a run are kept, and in which file |
| `Displays.dfy`, `Cropping.dfy`, `RowStride.dfy` | reordering displays, cropping frames, row lengths | permutation and order, pixel by pixel contents, least multiple |

Code that changes state is a class whose methods are proved against functions on
a value of that state (`Model()`); whole runs are then reasoned about with those
functions. Where the activities of the server interleave, each section that holds the
slots' lock is one step, and runs are arbitrary lists of such steps.
`Bits.dfy` and `Bytes.dfy` hold the bit operations and the little-endian
encoding that the rest shares; `Codecs.dfy`, `Lists.dfy` and `Wrappers.dfy` a few
small types and functions.

## Assumptions

- `secretbox` is a pair of functions with two laws: a sealed text opens under its
  own nonce, and sealing adds 16 bytes (`Lawful`). That it does not open under
  another nonce (`Authentic`) is assumed only where it is named. `LawsConsistent`
  shows that the laws can be met.
- `zstd` is a pair of functions that give back what went in (`Sound`). Lemmas
  about whole transfers also assume that compressing does not fail
  (`NeverFails`); `PackIntact` says what happens otherwise.
- Destination paths are distinct, none is another with `.download` added, and
  there is no leftover `.download` of the file that the receiving job starts
  with (`ReadyToReceive`; `ReadyByNames` says it in terms of the names).
  `StaleDownloadTakesOver` shows that the last of these is needed.
- In lemmas about whole transfers the receiver can create, flush and store its
  files; `FailedCreateMisdirects`, `FailedSyncHarmless` and `FailedStoreRepeats`
  say what happens otherwise.
- Arithmetic on machine words is that of release builds: it wraps around.

## Where the code falls short

Each of these is a lemma with the exact condition, and a run or an input that shows it
where the condition does not name one.

- A message too big for a frame is rejected by the codec after the cipher has
  counted it. With a cipher that is authentic none of the later messages opens
  then; all the earlier ones do (`CountersAgree`, `EachArrives`).
- Both ends seal under one key and count from the same start, so as soon as both
  send, messages share nonces (`DuplexDistinctIff`, `FirstMessages`).
- Mangling loses the flow label and the scope of an IPv6 address (`RoundTrip` in
  `AddrMangle`).
- With seven or more components version numbers overflow and no longer follow
  the order of versions (`OrderKeptIff`). The comment beside the code gives
  1001030 for 1.2.3; the code makes it 1002030 (`Examples`), and the model follows
  the code.
- A confirmation that arrives after the last file keeps a job until a skip for
  that very number comes (`DroppedIff`, `StuckUntilSkip`, `LateConfirmSticks`).
- A digest that cannot be sent is an error without progress (`ReadProgress`).
- A file that cannot be created leaves a receiving job that had a file open with
  that file under the new number (`FailedCreateMisdirects`); a block stored in
  part and sent again is stored behind that part (`FailedStoreRepeats`).
- A failed compression is taken for a very good one (`PackIntact`).
- The list of connected clients is shortened by the index of the slot and not by
  the place of its entry, and a slot released in the middle of its connect is
  listed all the same. `ReleaseRightIff` and `RunRightIff` say exactly when the
  entries are those of the held slots and their clients; `StaleEntry` is a run
  that leaves an entry for a free slot.
- A client can be evicted while it connects, for the silence of another one
  (`EvictedWhileConnectingIff`, `NeverEvictedWhileConnecting`,
  `EvictedWhileConnecting`).
- A sweep frees the slots that its scan found silent, whatever has happened since.
  `SweptIff` says exactly when such a slot is still silent, and `NewcomerSwept`
  is a run in which the client swept has connected after the scan.
- Stopping looks at each slot once; a connect that takes a slot after its turn
  stays (`CancelledIff`, `CancelMisses`).
- A report can go out for a slot released in between (`LateReportIff`,
  `LateReport`).
- A disconnect or heartbeat of one byte acts on the slot that an earlier packet
  named (`ShortPacketActsOn`, `ShortDisconnect`).
- VP9 is used without asking whether the peers decode it (`AllDecodeIff`,
  `Vp9ChosenIff`, `Vp9TakenForGranted`).
- A key frame behind a frame whose check fails in the same message is lost
  (`MessageKeeps`, `NothingLost`, `KeyFrameLost`).
- The timestamps of a webm file are out of order when the register comes round
  between its frames, as it does between -1 and 0 (`NanosInOrder`,
  `ShortFileInOrder`, `NegativeStart`).
- With repeated names the branch of the display order that is marked
  unreachable is reached (`MissesIff`, `RepeatedNamesMiss`).
- An alignment that is no power of two gives rows that are no multiples of it
  (`AlwaysMultipleIff`).

## Model

| member | source | states |
|---|---|---|
| BytesCodec.FirstStable | src-tauri/libs/hbb_common/src/bytes_codec.rs:41-107 | further bytes never change a frame or an error that the stream already starts with |
| BytesCodec.FirstOfEncoding | src-tauri/libs/hbb_common/src/bytes_codec.rs:41-73 | an encoded payload is read back with whatever follows left over, and refused exactly if it is over the limit |
| BytesCodec.FirstOfHeader | src-tauri/libs/hbb_common/src/bytes_codec.rs:41-73 | every header that has room for a length announces it, also one longer than it need be, and no front part of a header announces anything |
| BytesCodec.WireForm | src-tauri/libs/hbb_common/src/bytes_codec.rs:113-134 | byte by byte what goes out for a payload of any length: the shortest header that has room, then the payload |
| BytesCodec.ParseAppend | src-tauri/libs/hbb_common/src/bytes_codec.rs:80-107 | parsing a stream and resuming with more bytes is parsing the whole |
| BytesCodec.ParseRest | src-tauri/libs/hbb_common/src/bytes_codec.rs:80-107 | what is left after exhaustion holds no further frame |
| BytesCodec.ParseOfEncodings | src-tauri/libs/hbb_common/src/bytes_codec.rs:113-134 | a stream of encodings parses to its payloads up to the first over the limit, and fails exactly if there is one |
| BytesCodec.BytesCodec.ReadHeadNumber | src-tauri/libs/hbb_common/src/bytes_codec.rs:49-59 | the shifts and ors read the header as a little-endian number without its two low bits |
| BytesCodec.BytesCodec.DecodeHead | src-tauri/libs/hbb_common/src/bytes_codec.rs:41-66 | a header is taken off only if it is whole and its length is within the limit; nothing is lost |
| BytesCodec.BytesCodec.DecodeData | src-tauri/libs/hbb_common/src/bytes_codec.rs:68-73 | exactly the announced bytes are taken, or none |
| BytesCodec.BytesCodec.Decode | src-tauri/libs/hbb_common/src/bytes_codec.rs:80-107 | one call takes exactly the first item of the unread stream, whatever part of it earlier calls have consumed |
| BytesCodec.BytesCodec.PutHead | src-tauri/libs/hbb_common/src/bytes_codec.rs:119-128 | the header of a payload as the little-endian number of its length and its own size, for each of the four sizes |
| BytesCodec.BytesCodec.Encode | src-tauri/libs/hbb_common/src/bytes_codec.rs:113-134 | appends the encoding of the payload, or reports exactly those of 2^30 bytes and more and leaves the buffer alone |
| BytesCodec.OrTag | src-tauri/libs/hbb_common/src/bytes_codec.rs:119-128 | a length shifted by two and cut to the word leaves room for the tag and loses nothing |
| BytesCodec.HalfAndByte | src-tauri/libs/hbb_common/src/bytes_codec.rs:123-126 | the two parts of a 24-bit header are its little-endian bytes |
| BytesCodec.OrByte | src-tauri/libs/hbb_common/src/bytes_codec.rs:49-58 | joining in the next byte of a header adds it at its place |
| BytesCodec.DecodeAll | src-tauri/libs/hbb_common/src/bytes_codec.rs:80-107 | calling the decoder until it has nothing more gives the parse of what was unread |
| BytesCodec.Feed | src-tauri/libs/hbb_common/src/bytes_codec.rs:80-107 | one more chunk: the frames of the unread part and the chunk come out, the rest stays unread |
| BytesCodec.DecodeChunks | src-tauri/libs/hbb_common/src/bytes_codec.rs:41-107 | on arbitrary bytes and for any limit, frames, the position of the first frame that is too big and, without one, the decoder's state and buffer depend only on the concatenated bytes |
| BytesCodec.ParseTooBigStays | src-tauri/libs/hbb_common/src/bytes_codec.rs:60-62 | later chunks change neither the frames before the first error nor its position |
| BytesCodec.RoundTrip | src-tauri/libs/hbb_common/src/bytes_codec.rs:80-134 | for every list of payloads and every way of cutting the stream exactly that list comes out, with an empty buffer and the decoder at a header |
| BytesCodec.EncodeAll | src-tauri/libs/hbb_common/src/bytes_codec.rs:113-134 | encoding one payload after the other gives the concatenation of the encodings |
| SecureStream.NonceBytes | src-tauri/libs/hbb_common/src/tcp.rs:202-206 | byte by byte: the first eight bytes of a nonce are the counter, little-endian, and the other sixteen are zero |
| SecureStream.NoncesDistinctIff | src-tauri/libs/hbb_common/src/tcp.rs:202-206 | over every run of one direction, rejected messages included, all nonces are pairwise distinct exactly up to 2^64 messages |
| SecureStream.SeqnumsRise | src-tauri/libs/hbb_common/src/tcp.rs:314-318 | below 2^64 messages the counters of the accepted messages rise strictly over the run |
| SecureStream.DuplexDistinctIff | src-tauri/libs/hbb_common/src/tcp.rs:293-318 | with a script in each direction under one key all nonces are distinct exactly if one side sends nothing and the other not more than 2^64 messages; else the first messages share theirs |
| SecureStream.FirstMessages | src-tauri/libs/hbb_common/src/tcp.rs:293-318 | on the streams themselves the first message of either end goes out sealed under the same nonce |
| SecureStream.Encrypt.Enc | src-tauri/libs/hbb_common/src/tcp.rs:314-318 | the counter goes up by one and the text is sealed under its new value |
| SecureStream.Encrypt.Dec | src-tauri/libs/hbb_common/src/tcp.rs:298-312 | frames of at most one byte pass uncounted; any other is opened under the next counter, and kept as it is if that fails |
| SecureStream.FramedStream.SendRaw | src-tauri/libs/hbb_common/src/tcp.rs:157-174 | the sealed message goes out in one frame, or is refused after it has been counted |
| SecureStream.FramedStream.Next | src-tauri/libs/hbb_common/src/tcp.rs:177-187 | the first frame of the unread input is opened, exactly one frame is used up, and the counter moves with it |
| SecureStream.FirstInTransit | src-tauri/libs/hbb_common/src/tcp.rs:157-187 | a reader sees nothing yet or exactly the oldest message on its way, never a torn or merged frame |
| SecureStream.TakeNext | src-tauri/libs/hbb_common/src/tcp.rs:298-302 | a frame in transit is never short enough to pass unopened, and taking it keeps the pipe's invariant |
| SecureStream.Link.Send | src-tauri/libs/hbb_common/src/tcp.rs:157-174 | sending keeps the invariant of the pipe and appends exactly the messages that fit |
| SecureStream.Link.Receive | src-tauri/libs/hbb_common/src/tcp.rs:177-187 | receiving keeps the invariant, and nothing is left to receive only if all has been received |
| SecureStream.Link.Drain | src-tauri/libs/hbb_common/src/tcp.rs:177-187 | delivering and receiving what is left ends with everything received |
| SecureStream.Pipe | src-tauri/libs/hbb_common/src/tcp.rs:157-187 | over every script each accepted message arrives in order, both counters are the numbers of calls that moved them, and the nonces used are those of the script |
| SecureStream.SendsAndAccepted | src-tauri/libs/hbb_common/src/tcp.rs:157-164 | as many messages are accepted as sent exactly if none is too big |
| SecureStream.CountersAgree | src-tauri/libs/hbb_common/src/tcp.rs:298-318 | both counters agree on every message exactly if none was sent after one that is too big |
| SecureStream.AllArrive | src-tauri/libs/hbb_common/src/tcp.rs:157-187 | every accepted message opens to what was sent if no message follows one that is too big, and with an authentic cipher only then |
| SecureStream.EachArrives | src-tauri/libs/hbb_common/src/tcp.rs:157-187 | below 2^64 actions, the fate of each accepted message: those before the first that is too big open to what was sent, and with an authentic cipher none of those after it opens |
| SecureStream.LawsConsistent | src-tauri/libs/hbb_common/src/tcp.rs:304-317 | the laws that are assumed of the cipher can be met |
| AddrMangle.PackingDisjoint | src-tauri/libs/hbb_common/src/lib.rs:129-135 | the three packed fields never overlap |
| AddrMangle.Unpacking | src-tauri/libs/hbb_common/src/lib.rs:172-180 | the shifts and masks find the fields again, without underflow; the cut to 16 bits makes up for the mask of 24 |
| AddrMangle.Ipv4Forms | src-tauri/libs/hbb_common/src/lib.rs:110-121 | over the bytes: all IPv4-mapped addresses, all compatible ones but the loopback address, and no others become IPv4 addresses, with the last four bytes and the port |
| AddrMangle.Encode | src-tauri/libs/hbb_common/src/lib.rs:124-155 | an IPv4 form of at most 11 bytes without a zero at the end that reads as the packed number, or an IPv6 form of exactly 18 |
| AddrMangle.Stripped | src-tauri/libs/hbb_common/src/lib.rs:136-145 | dropping the zero bytes keeps the number and leaves at most 11 bytes |
| AddrMangle.DecodeEncoded | src-tauri/libs/hbb_common/src/lib.rs:157-180 | decoding gives the address in its IPv4 form if it has one, and else without flow label and scope |
| AddrMangle.DecodeAny | src-tauri/libs/hbb_common/src/lib.rs:168-180 | what any bytes up to 16 decode to, also those that no encoder sends: with n their number, the port is n - n/2^17 cut to 16 bits and the address n/2^49 - n/2^17 cut to 32 |
| AddrMangle.DecodeLong | src-tauri/libs/hbb_common/src/lib.rs:157-167 | 18 bytes are an address and a little-endian port; 17 bytes and more than 18 are refused |
| AddrMangle.RoundTrip | src-tauri/libs/hbb_common/src/lib.rs:110-180 | decode(encode(a)) == try_into_v4(a) for every address, port and timestamp, exactly if no flow label or scope is lost |
| AddrMangle.FormsApart | src-tauri/libs/hbb_common/src/lib.rs:157-179 | the two forms are told apart by their lengths |
| Version.Split | src-tauri/libs/hbb_common/src/lib.rs:246-255 | the pieces are free of the separator and joined by it give the string |
| Version.ParseNumber | src-tauri/libs/hbb_common/src/lib.rs:254-262 | digits with a sign or without are their number, exactly as far as 64 bits reach |
| Version.ParseNothing | src-tauri/libs/hbb_common/src/lib.rs:254-262 | a string without digits or with anything else in it is no number |
| Version.ReadAny | src-tauri/libs/hbb_common/src/lib.rs:245-270 | any string: components up to the first dash, the patch up to the next, what is no number counts as zero, the rest is ignored |
| Version.Examples | src-tauri/libs/hbb_common/src/lib.rs:244-262 | "1.1.10" is 1001100, "1.2.3" is 1002030 and "1.4.0-beta" is 1004000 |
| Version.FoldPieces | src-tauri/libs/hbb_common/src/lib.rs:253-258 | the wrapping loop computes the wrapped fold of the components and keeps the last of them |
| Version.GetVersionNumber | src-tauri/libs/hbb_common/src/lib.rs:245-270 | the number computed is the number meant, wrapped to 64 bits |
| Version.ValueMonotone | src-tauri/libs/hbb_common/src/lib.rs:244-270 | the number meant is strictly monotone in the components and the patch, for any number of components |
| Version.OrderKeptIff | src-tauri/libs/hbb_common/src/lib.rs:245-270 | for strings the number computed keeps the order of versions exactly for up to six components |
| Version.ReadShow | src-tauri/libs/hbb_common/src/lib.rs:246-265 | every version within the bounds is the reading of a string, so statements about such versions are statements about strings |
| Version.NumbersDiffer | src-tauri/libs/hbb_common/src/lib.rs:245-270 | different versions of up to six components have different numbers |
| FileTransfer.Joined | src-tauri/libs/hbb_common/src/fs.rs:475-481 | an absolute name replaces the path of the job, an empty one is it, any other stands behind it with one slash |
| FileTransfer.PathsOfNames | src-tauri/libs/hbb_common/src/fs.rs:475-481 | relative names alone decide whether two files go to one path, or one to where another is being written |
| FileTransfer.CompressedKinds | src-tauri/libs/hbb_common/src/fs.rs:297-316 | what stands behind the last dot decides, and which nine extensions count |
| FileTransfer.PackShorter | src-tauri/libs/hbb_common/src/fs.rs:546-553 | compression is used exactly where the file is not of a compressed kind and the block gets shorter |
| FileTransfer.PackIntact | src-tauri/libs/hbb_common/src/fs.rs:547-553 | a block delivers its chunk exactly if the file is of a compressed kind or the compressor worked |
| FileTransfer.PackNonempty | src-tauri/libs/hbb_common/src/fs.rs:539-563 | with a working compressor only the last block of a file is empty |
| FileTransfer.TransferJob.SetFileConfirmed | src-tauri/libs/hbb_common/src/fs.rs:604-608 | confirms or revokes, and the last file no longer counts as skipped |
| FileTransfer.TransferJob.SetFileSkipped | src-tauri/libs/hbb_common/src/fs.rs:657-665 | leaves the file and marks it as skipped |
| FileTransfer.TransferJob.Confirm | src-tauri/libs/hbb_common/src/fs.rs:667-686 | an answer counts only for the file at hand; it confirms it or skips it |
| FileTransfer.TransferJob.ModifyTime | src-tauri/libs/hbb_common/src/fs.rs:407-420 | the finished file gets its name and its time |
| FileTransfer.TransferJob.Write | src-tauri/libs/hbb_common/src/fs.rs:432-472 | a block goes to the file at hand or, after finishing that, to a new one; wrong numbers change nothing; a failed flush, create or store leaves what the code leaves |
| FileTransfer.TransferJob.Store | src-tauri/libs/hbb_common/src/fs.rs:454-472 | the unpacked data goes behind what the open file holds and the sizes are counted, or a front part goes there uncounted |
| FileTransfer.TransferJob.ReadSome | src-tauri/libs/hbb_common/src/fs.rs:516-530 | one system call gives some of the bytes that are left, and none only at the end |
| FileTransfer.TransferJob.FillBuffer | src-tauri/libs/hbb_common/src/fs.rs:512-538 | the next 128 KiB or what is left, however the system splits the reads |
| FileTransfer.TransferJob.ReadBlock | src-tauri/libs/hbb_common/src/fs.rs:512-563 | the block of the next chunk with the sizes counted, or the empty block that leaves the file |
| FileTransfer.TransferJob.OpenFile | src-tauri/libs/hbb_common/src/fs.rs:490-504 | opens the file at its start with the flags cleared, or leaves it behind |
| FileTransfer.TransferJob.Read | src-tauri/libs/hbb_common/src/fs.rs:483-563 | opening, the request for a confirmation, the block and every error, as one step |
| TransferProtocol.SendRunInv | src-tauri/libs/hbb_common/src/fs.rs:483-563 | in every run: blocks in the order of the files, each with the next chunk of its file, none after an empty one; ceil(n/131072)+1 blocks for a file of n bytes sent to its end; at most one digest for a file; sizes as counted |
| TransferProtocol.CutInPlace | src-tauri/libs/hbb_common/src/fs.rs:512-563 | each block of a file holds 131072 bytes of it or the rest, and is empty exactly if it is the last of a file sent to its end |
| TransferProtocol.AnswerDecides | src-tauri/libs/hbb_common/src/fs.rs:667-686 | for a file that waits for an answer: confirmed, with any offset, its next chunk goes out; skipped, the next file is at hand; any other answer, or one for another number, changes nothing |
| TransferProtocol.RefusedIff | src-tauri/libs/hbb_common/src/fs.rs:432-439 | a block is refused exactly if it is not for this job or for none of its files, and then nothing has changed |
| TransferProtocol.ReadyByNames | src-tauri/libs/hbb_common/src/fs.rs:440-453 | when destinations do not get in each other's way, in terms of the names |
| TransferProtocol.ReceiveRunInv | src-tauri/libs/hbb_common/src/fs.rs:432-472 | after every list of blocks in order: each earlier file arrived, the one at hand in its `.download`, the rest untouched |
| TransferProtocol.EndToEnd | src-tauri/libs/hbb_common/src/fs.rs:407-563 | whatever fails, is confirmed or skipped on the sending side: files sent to their end arrive exactly, by blocks that are each in place, others as a front part or not at all; nothing else changes, and both sides agree on the sizes |
| TransferProtocol.FinishEffect | src-tauri/libs/hbb_common/src/fs.rs:407-420 | finishing touches the two paths of the file only and puts the downloaded contents under its name |
| TransferProtocol.ReadProgress | src-tauri/libs/hbb_common/src/fs.rs:483-563 | a read that gives a block or an error decreases (files left, bytes left), except exactly when a due digest cannot be sent |
| TransferProtocol.DroppedIff | src-tauri/libs/hbb_common/src/fs.rs:644-855 | in every reachable state a job is dropped exactly if all files are dealt with and no late confirmation stands, and never while one is awaited |
| TransferProtocol.SkippedIff | src-tauri/libs/hbb_common/src/fs.rs:604-686 | over every run the mark for a skip stands exactly if the last answer that was accepted was a skip |
| TransferProtocol.LateConfirmSticks | src-tauri/libs/hbb_common/src/fs.rs:667-686 | after a confirmation beyond the last file nothing that is read, confirmed or skipped lets the job be dropped, but a skip for its very number |
| TransferProtocol.StuckUntilSkip | src-tauri/libs/hbb_common/src/fs.rs:644-686 | such a job stays stuck exactly until that skip, which lets it be dropped |
| TransferProtocol.StaleDownloadTakesOver | src-tauri/libs/hbb_common/src/fs.rs:440-441 | a leftover `.download` of the first file takes its place although nothing of it was sent |
| TransferProtocol.FailedCreateMisdirects | src-tauri/libs/hbb_common/src/fs.rs:440-471 | after a failed create the block sent again goes to its own file exactly if no file was open, and else is added to the one before |
| TransferProtocol.FailedSyncHarmless | src-tauri/libs/hbb_common/src/fs.rs:440-444 | after a failed flush the block sent again has the effect it would have had; without an open file none is flushed |
| TransferProtocol.FailedStoreRepeats | src-tauri/libs/hbb_common/src/fs.rs:454-471 | after a store that failed in part the block sent again stands behind the bytes stored before, rightly exactly if there were none, and is counted once |
| TransferRuns.RemoveJob | src-tauri/libs/hbb_common/src/fs.rs:799-801 | keeps exactly the jobs with another id, in their order |
| TransferRuns.Kept | src-tauri/libs/hbb_common/src/fs.rs:799-801 | a job stays exactly if it was there and its id is not among those to go |
| TransferRuns.HandleJob | src-tauri/libs/hbb_common/src/fs.rs:819-850 | one job's turn in a pass: what it sends, what becomes of it, and that it is finished exactly if it is dropped |
| TransferRuns.ReportDone | src-tauri/libs/hbb_common/src/fs.rs:831-846 | a job without a block reports only if it is complete, a skipped one with an error |
| TransferRuns.PassReports | src-tauri/libs/hbb_common/src/fs.rs:813-850 | after any run of a job what a pass sends for it: its digest, its block or its error; at its end an error exactly for a job of one file that was skipped last, else done; nothing for a job left over |
| TransferRuns.ReadAll | src-tauri/libs/hbb_common/src/fs.rs:819-850 | every job is read once and in order, left-over jobs not at all, and the finished ones are collected |
| TransferRuns.RemoveJobs | src-tauri/libs/hbb_common/src/fs.rs:851-853 | removing one id after the other keeps the jobs with none of them |
| TransferRuns.HandleReadJobs | src-tauri/libs/hbb_common/src/fs.rs:813-855 | the whole pass: new job states, messages and the jobs that stay |
| TransferRuns.PassDrops | src-tauri/libs/hbb_common/src/fs.rs:813-855 | with distinct ids a pass drops exactly the jobs that it finds complete |
| TransferRuns.TurnHandled | src-tauri/libs/hbb_common/src/fs.rs:483-563 | a driven read sends a block, passes over a missing file to be skipped, waits for an answer with the file open, or has dealt with all files |
| TransferRuns.Transfer | src-tauri/libs/hbb_common/src/fs.rs:407-563 | a transfer from start to end always ends; every file not skipped is at the receiver exactly as at the source, skipped ones are as before, nothing else has changed, and the sizes agree |
| ControllerServer.LowestFree | src-tauri/src/handler/server.rs:219-233 | the lowest free slot, or none exactly if all are taken |
| ControllerServer.Server.AcquireClientSlot | src-tauri/src/handler/server.rs:219-233 | takes the lowest free slot with its number and sequence zero, or changes nothing |
| ControllerServer.Server.DisconnectClient | src-tauri/src/handler/server.rs:259-264 | removes the entry at a place of the list, if there is one |
| ControllerServer.Server.ReleaseClientSlot | src-tauri/src/handler/server.rs:235-257 | frees exactly the named slot; zero wraps around to no slot and no client |
| ControllerServer.Server.Receive | src-tauri/src/handler/server.rs:45-142 | a packet over what is left in the buffer, and its first lock section |
| ControllerServer.Server.ConnectSection | src-tauri/src/handler/server.rs:51-52 | a connect takes the lowest free slot or is ignored |
| ControllerServer.Server.DataSection | src-tauri/src/handler/server.rs:68-85 | only the holder's address is heard, and only a higher sequence number is chosen |
| ControllerServer.Server.StampSlot | src-tauri/src/handler/server.rs:54-58 | the second lock section of a connect stores address and time |
| ControllerServer.Server.AddConnectedClient | src-tauri/src/handler/server.rs:266-276 | appends to the list unless it has four entries |
| ControllerServer.Server.ExecuteChosen | src-tauri/src/handler/server.rs:87-115 | the reused device buffer carries the slot's number and the structure parsed from the packet |
| ControllerServer.Server.LeaveSlot | src-tauri/src/handler/server.rs:124-127 | the slot that a disconnect named is freed after the lock has been given up |
| ControllerServer.Server.ScanSilent | src-tauri/src/handler/server.rs:161-172 | finds exactly the occupied slots that have been silent for more than 3000 ms |
| ControllerServer.Server.Sweep | src-tauri/src/handler/server.rs:159-176 | a sweep that nothing interrupts releases those slots |
| ControllerServer.Server.CancelAllClients | src-tauri/src/handler/server.rs:206-217 | run alone it leaves every slot free and touches no free one |
| ControllerServer.RunInv | src-tauri/src/handler/server.rs:43-146 | every interleaving keeps the slot table, its agreement with what has happened, and input safety |
| ControllerServer.TableAlways | src-tauri/src/handler/server.rs:43-146 | in every reachable state numbers and sequences are in order, and between packets every occupied slot has an address and a time |
| ControllerServer.InputSafety | src-tauri/src/handler/server.rs:51-117 | every packet chosen for execution belongs to an unended session begun by a connect from its sender, with a sequence number above zero and above all before it in the session |
| ControllerServer.ChosenIff | src-tauri/src/handler/server.rs:68-85 | in every reachable state a packet is chosen exactly if it is a data packet of at least 22 bytes from the holder of its slot with a sequence number above all before it in the session |
| ControllerServer.PacketEffect | src-tauri/src/handler/server.rs:49-139 | all that a packet of any bytes can do in any state: who acts, on which slot, by the bytes themselves, what is stored there and what comes next; anything else is ignored |
| ControllerServer.OwnerSession | src-tauri/src/handler/server.rs:219-257 | a slot that is held is held by one session, whose chosen packets all come from its holder in rising order |
| ControllerServer.GamepadRoundTrip | src-tauri/src/vbus/driver.rs:102-111 | taking a packet apart into a structure and that into bytes gives the packet's bytes |
| ControllerServer.GamepadFields | src-tauri/src/handler/server.rs:90-105 | at which bytes the fields of a gamepad lie, the sticks in two's complement |
| ControllerServer.ReportRight | src-tauri/src/handler/server.rs:107-115 | a report is header, slot number, the packet's twelve bytes and zeros, whatever was in the buffer |
| ControllerServer.ReportsFollow | src-tauri/src/handler/server.rs:89-117 | the bus gets exactly the chosen packets, each once and in order; only one just chosen may be due |
| ControllerServer.SilentIff | src-tauri/src/handler/server.rs:164-172 | a slot is silent exactly if it is occupied and its time lies 3 001 000 000 nanoseconds back or more |
| ControllerServer.SweepFrees | src-tauri/src/handler/server.rs:157-177 | in nanoseconds: after a sweep exactly those slots are occupied that were and have no time or one less than 3 001 000 000 back; they are unchanged and released ones blank |
| ControllerServer.HeardIsKept | src-tauri/src/handler/server.rs:76-138 | a heartbeat or data packet of the holder keeps its slot for exactly those sweeps that come less than 3 001 000 000 nanoseconds later, and touches no other slot |
| ControllerServer.ReleaseRightIff | src-tauri/src/handler/server.rs:259-264 | with a list that has one entry for each held slot, with its holder's address, a release of any slot, occupied or free, keeps it so exactly if it finds the slot's entry at the slot's index, or no entry there for a slot that has none |
| ControllerServer.StepRightIff | src-tauri/src/handler/server.rs:43-146 | any step keeps the list right, addresses included, exactly if its release is right, or the slot it lists is still held |
| ControllerServer.RunRightIff | src-tauri/src/handler/server.rs:43-276 | over every run the list has been right all the time, addresses included, exactly if every step was |
| ControllerServer.ListBounded | src-tauri/src/handler/server.rs:266-276 | in every run the list never has a fifth entry |
| ControllerServer.StaleEntry | src-tauri/src/handler/server.rs:259-276 | two connects and two releases leave an entry for a slot that is free |
| ControllerServer.EvictedWhileConnectingIff | src-tauri/src/handler/server.rs:52-58 | in every reachable state a slot in the middle of its connect is silent to a sweep exactly if it is held and its last stamp, long enough ago, hit it when it was free |
| ControllerServer.NeverEvictedWhileConnecting | src-tauri/src/handler/server.rs:52-58 | unless a slot is released between the two lock sections of its connect, every free slot is blank and no connecting slot is ever silent |
| ControllerServer.EvictedWhileConnecting | src-tauri/src/handler/server.rs:52-58 | a run in which the next client of such a slot is silent before its time is stored |
| ControllerServer.ShortPacketActsOn | src-tauri/src/handler/server.rs:118-139 | from two bytes on a disconnect or heartbeat acts on the slot it names, one of a single byte on the slot that an earlier packet left in the buffer |
| ControllerServer.ShortDisconnect | src-tauri/src/handler/server.rs:118-127 | two reachable states with the same slots in which the same datagram of the same client frees its slot or does not |
| ControllerServer.SweptIff | src-tauri/src/handler/server.rs:161-176 | in every run, whatever comes, at times not before the scan, between the scan of a sweep and the release of a slot that the scan found: the slot is still silent exactly if no heartbeat or data packet of its holder, no stamp and no release has touched it, and it is freed in any case |
| ControllerServer.NewcomerSwept | src-tauri/src/handler/server.rs:161-176 | a run in which a client that connected after the scan is swept |
| ControllerServer.CancelledIff | src-tauri/src/handler/server.rs:206-217 | whatever comes between the looks and the releases of the cancellation, a slot is occupied afterwards exactly if a connect took it since its turn and nothing freed it again |
| ControllerServer.CancelMisses | src-tauri/src/handler/server.rs:206-217 | a run in which a client connects during the cancellation and stays |
| ControllerServer.LateReportIff | src-tauri/src/handler/server.rs:87-115 | in every run a report goes out for a free slot exactly if the slot was released after the packet had been chosen |
| ControllerServer.LateReport | src-tauri/src/handler/server.rs:87-115 | a run in which it does |
| Negotiation.Negotiator.UpdateCodec | src-tauri/libs/scrap/src/common/codec.rs:166-307 | the peers as changed, the flags as they follow from them, and a format that a most frequent preference leads to |
| Negotiation.Negotiator.UsableCodecs | src-tauri/libs/scrap/src/common/codec.rs:188-231 | a codec is usable exactly if there is a peer, all decode it and there is an encoder |
| Negotiation.Negotiator.Preferences | src-tauri/libs/scrap/src/common/codec.rs:233-243 | for any order of the map each eligible preference is collected as often as peers have it |
| Negotiation.Negotiator.Tally | src-tauri/libs/scrap/src/common/codec.rs:252-258 | one entry for each preference that occurs, with how often it does |
| Negotiation.Negotiator.MostFrequent | src-tauri/libs/scrap/src/common/codec.rs:259-263 | the first of the entries with the highest count, or automatic for none |
| Negotiation.Negotiator.FormatOf | src-tauri/libs/scrap/src/common/codec.rs:264-307 | the preference's format, or the automatic choice where there is none or no encoder for it |
| Negotiation.WinnerUsable | src-tauri/libs/scrap/src/common/codec.rs:233-243 | the fallbacks for a preferred H264 or H265 without an encoder are unreachable |
| Negotiation.ChosenUsable | src-tauri/libs/scrap/src/common/codec.rs:265-307 | a format other than VP9 is chosen only if every peer decodes it and there is an encoder |
| Negotiation.NoPeers | src-tauri/libs/scrap/src/common/codec.rs:188-307 | no peers means VP9 |
| Negotiation.Honoured | src-tauri/libs/scrap/src/common/codec.rs:249-307 | if any vote counts, the format is one that the most peers voted for |
| Negotiation.NegotiatedIff | src-tauri/libs/scrap/src/common/codec.rs:188-307 | which format can come out, exactly and in terms of peers and machine alone: one that the most peers want among those to be had, or, if none is wanted, H265 before H264 before VP8 with at most 4 GiB before AV1 if enabled before VP9 |
| Negotiation.PeersOf | src-tauri/libs/scrap/src/common/codec.rs:168-186 | the peers are those that came and did not go, with what they said last |
| Negotiation.AlwaysDecodable | src-tauri/libs/scrap/src/common/codec.rs:166-307 | after every history of updates, encoder failures and fallbacks that does not end with a fallback each peer that is there decodes the format and there is an encoder for it, unless it is VP9 |
| Negotiation.Vp9ChosenIff | src-tauri/libs/scrap/src/common/codec.rs:232-307 | VP9 can come out exactly if it has the most votes, or if there are none and no hardware codec, VP8 with little memory or AV1 offers itself |
| Negotiation.AllDecodeIff | src-tauri/libs/scrap/src/common/codec.rs:232-307 | every format that can come out is one that all peers decode exactly if all of them decode VP9 or VP9 cannot come out, in terms of the votes and offers |
| Negotiation.Vp9TakenForGranted | src-tauri/libs/scrap/src/common/codec.rs:265-307 | an input: a peer that decodes H264 only gets VP9 exactly if there is no encoder for H264 |
| Recorder.FileRecorder.WriteVideo | src-tauri/libs/scrap/src/common/record.rs:324-339 | nothing is given to the muxer before a key frame, and everything after |
| Recorder.Recorder.Check | src-tauri/libs/scrap/src/common/record.rs:118-166 | a file of the same size and format stays with its timestamp; otherwise there is a fresh one of that shape and no timestamp, with every way to fail |
| Recorder.CheckedFile | src-tauri/libs/scrap/src/common/record.rs:118-166 | when a check keeps the file at hand, and what else it closes, begins or leaves as it is |
| Recorder.Recorder.CheckPts | src-tauri/libs/scrap/src/common/record.rs:234-261 | a new file when timestamps go back, and no beginning without a key frame |
| Recorder.Recorder.WriteOne | src-tauri/libs/scrap/src/common/record.rs:196-201 | a frame is checked and then given to the file that the check left |
| Recorder.Recorder.WriteFrame | src-tauri/libs/scrap/src/common/record.rs:176-232 | a message: refused after a failed check, else its frames one by one until one fails |
| Recorder.RunInv | src-tauri/libs/scrap/src/common/record.rs:118-261 | every run keeps all closed files well formed and the open one in step with the last timestamp |
| Recorder.EveryFileWellFormed | src-tauri/libs/scrap/src/common/record.rs:118-261 | every file of every run has one size and format, begins with a key frame and has timestamps that do not decrease |
| Recorder.FailedForGood | src-tauri/libs/scrap/src/common/record.rs:182-195 | after a failed check no message changes anything any more |
| Recorder.MessageKeeps | src-tauri/libs/scrap/src/common/record.rs:196-261 | of a message exactly the frames before the first failing check are kept that come at or after a key frame of their file; a file is begun exactly where a timestamp goes back; which failures are for good |
| Recorder.NothingLost | src-tauri/libs/scrap/src/common/record.rs:196-261 | that is the whole message exactly if no check fails and every frame that begins a file, or finds one without a key frame, is a key frame |
| Recorder.RunKept | src-tauri/libs/scrap/src/common/record.rs:176-261 | over every run, against a description of calls that knows no recorder: which frames are kept and each in which file, how many files there are, and with what size, format, timestamp and key the next call goes on |
| Recorder.OneFile | src-tauri/libs/scrap/src/common/record.rs:118-261 | two messages of one size and format in order end up in one file |
| Recorder.KeyFrameLost | src-tauri/libs/scrap/src/common/record.rs:196-242 | a first message of another frame and a key frame loses the key frame |
| Recorder.NanosInOrder | src-tauri/libs/scrap/src/common/record.rs:324-339 | for all timestamps: those in a webm file are in order exactly if between each frame and the next the register comes round as often as whole periods lie between them |
| Recorder.ShortFileInOrder | src-tauri/libs/scrap/src/common/record.rs:324-339 | for a file of less than one period, 584 years, exactly if the register does not come round between its first and last frame |
| Recorder.WrapPoints | src-tauri/libs/scrap/src/common/record.rs:328-331 | the register comes round between -1 and 0 and after 18446744073709 |
| Recorder.NegativeStart | src-tauri/libs/scrap/src/common/record.rs:243-258 | a key frame before zero and a frame at zero make such a file |
| Displays.Position | src-tauri/libs/scrap/src/common/dxgi.rs:154-160 | the first display with a name, or none exactly if there is none |
| Displays.Permutation | src-tauri/libs/scrap/src/common/dxgi.rs:150-163 | reordering loses and doubles nothing, whatever the names |
| Displays.OrderedUnlessMissing | src-tauri/libs/scrap/src/common/dxgi.rs:153-163 | the result follows the names exactly if the branch for a missing name is not taken |
| Displays.StableUnlessMissing | src-tauri/libs/scrap/src/common/dxgi.rs:153-163 | and displays with one name then keep their order |
| Displays.MissesIff | src-tauri/libs/scrap/src/common/dxgi.rs:153-163 | that branch is not taken exactly if both lists have the same names equally often |
| Displays.DistinctNeverMiss | src-tauri/libs/scrap/src/common/dxgi.rs:143-163 | for distinct names that pass the check the branch is unreachable |
| Displays.All | src-tauri/libs/scrap/src/common/dxgi.rs:122-165 | GDI's list if DXGI is empty, else a permutation of DXGI's, in GDI's order, and then stable, exactly if the names agree |
| Displays.RepeatedNamesMiss | src-tauri/libs/scrap/src/common/dxgi.rs:144-161 | repeated names pass the check and reach the branch, and what comes out then |
| Cropping.InsideSliceable | src-tauri/libs/scrap/src/wayland/pipewire.rs:314-327 | a rectangle inside the image never leaves the buffer |
| Cropping.PipeWireRecorder.CropRows | src-tauri/libs/scrap/src/wayland/pipewire.rs:316-328 | the loop stays in bounds exactly if the last row does, and then yields 4*w*h bytes with every pixel at its offset |
| Cropping.PartBytes | src-tauri/libs/scrap/src/wayland/pipewire.rs:316-328 | byte by byte: where each byte of the part comes from |
| Cropping.PipeWireRecorder.Capture | src-tauri/libs/scrap/src/wayland/pipewire.rs:287-357 | what is given out always has the width and height said and is the sample or its part; samples like the last or of another size change nothing |
| RowStride.LeastMultiple | src-tauri/libs/scrap/src/common/mod.rs:427-435 | for a power of two the mask gives the least multiple that holds the pixels |
| RowStride.PixelInside | src-tauri/libs/scrap/src/common/mod.rs:437-441 | every pixel of every row lies inside the buffer and before the next row |
| RowStride.AlwaysMultipleIff | src-tauri/libs/scrap/src/common/mod.rs:434 | with room for some rows the mask gives a multiple of the alignment for every width exactly if the alignment is a power of two |

## Left out

- Sockets, tasks and timeouts of the async runtime: what arrives, and in which pieces and order, is arbitrary input; a send that fails and ends `handle_read_jobs` or `next` early is not modelled.
- `set_max_packet_length` between two frames, the raw mode of the secured stream (`set_raw` drops the key), and the plain stream without a key, which is the codec alone.
- The bytes of protocol messages: blocks, digests and answers are values; a digest carries the file's number but not its size and time.
- TransferJob: sizes are unbounded, so the wrap of the 64-bit totals beyond 2^64 bytes is not modelled; the list of files and its validation when a job is created, and the log lines, are left out.
- FileTransfer.TransferJob.Write: one call fails in one way at most; that the directory cannot be made shows only in the file that then cannot be created.
- TransferRuns.HandleReadJobs: the job log that it returns as text is not modelled.
- Directory listing, removal and renaming helpers of `fs.rs`: calls to the file system without decisions of their own.
- FileTransfer.Joined: paths are those of Unix; drive letters and backslashes are not modelled.
- The file times of skipped files: finishing may set the time of a file that was there before; its contents are what is proved.
- Version.GetVersionNumber: characters are those of Dafny strings; the wording of version strings elsewhere (`get_version_from_url`) is not modelled.
- AddrMangle.Encode: the clock is a parameter.
- ControllerServer.Server.Receive: that a datagram is longer than the buffer or that receiving fails is not modelled; the acknowledgement to the client is not modelled.
- Plugging in and unplugging on the virtual bus: calls into the driver; only the bytes of reports are modelled. Starting the server twice is left out, and so is the end of the receiving loop.
- The configuration from which a fallback takes its format (`set_fallback`): a fallback is an event with any format.
- Negotiation: quality and bitrate, `i444`, and the decoder's side are left out; hardware codecs are flags of the machine.
- Recorder: finalizing and removing short files when a recorder is dropped, file names, and states sent to the user interface are left out; muxers are logs of what they were given.
- Cropping.PipeWireRecorder.Capture: the pixel format is not modelled.
- RowStride.AlwaysMultipleIff: alignments of more than an eighth of the address space, which leave no room for rows, are left out.
- The conversion of images by libyuv, other encoders and decoders, screen capture on the various systems, configuration, password storage, the installer and the web interface: foreign calls, plumbing or user interface.
- `old.rs` and `handler/client.rs` are not part of the build.
