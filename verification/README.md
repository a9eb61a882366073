# casycom in Dafny

A model of casycom, an asynchronous COM framework in C, and proofs about it. The
model follows the C code in its own form: the globals of `main.c`, the `Extern` and `COMRelay`
objects of `xcom.c`, the streams and the vector are classes whose methods change fields and
arrays in place; every such method is proved against a function or relation on values,
and the properties of whole runs are proved about those.

Run `dafny verify dfyconfig.toml`.

## What is modelled

**Object and link map** (`Links`, `Worlds`, `Cascades`, `Settling`, `Notices`, `Cleanups`, `ObjectMap`,
`MessageLoop`).
The link map is sorted by destination; the first link of a destination carries the object and names
its creator. Destroying an object removes the links that leave it, which destroys the objects
it created, by a recursive loop that starts over after each removal. Ghost birth times and logs
of created and destroyed objects give the history. The main results: the closed form of that loop,
the invariant over all runs, acyclic creator chains and the exact path of an error, objects
created on first use by a constructor that changes the map, what each destroyed object's callers are told, and
the two message queues with the main loop.

**Marshalling** (`Bytes`, `Signatures`, `Marshalling`, `Layouts`, `Streams`, `ValueStreams`, `Validator`).
Signatures are trees printed to strings; the validator works on the string and the body, as in C.
The layout of values is a function, the writers produce it, the validator accepts it and the readers undo it; and
for any bytes at all, the validator accepts exactly those on which values are laid out, by a relation that
no code mirrors, and the readers then read these values, or they stop.

**Wire protocol** (`Wire`, `Headers`, `Writer`, `Reader`, `Framing`, `Delivery`).
Writer and reader are state machines over the counters of header and body bytes. `sendmsg` and
`recvmsg` take or give any number of bytes from one to what was offered. A message handed on is recorded with its
fields, its header strings and its body, and with the header buffer as the lookups see it.

**Connections** (`Connections`, `Externs`, `Peers`, `Relay`, `Exports`).
The connection table of each side, on its link map, and two peers joined by two queues in order.
Each message on the way remembers which relay sent it, which no code reads.

**Vector** (`Vector`). An array with size and memory, as a sequence.

## Where code and documentation differ

The model follows the code. Each of these is proved, with its exact condition.

- A message without body counts as sent, and as received, after any transfer that moves at least one byte
  (xcom.c:618, xcom.c:909). The stream stays in step if and only if no such message is cut inside its
  header: `Writers.Writer.Sent` and `Readers.Reader.Receive`.
- The method lookup reads the header size from a buffer over which the fixed header of the next message
  may have been read (xcom.c:561, xcom.c:783). A method is found if and only if the size that is there covers its strings.
- Headers of 241 to 247 bytes pass the sender's assert at xcom.c:846 and are sent, padded to the 248 bytes of the
  buffer; the receiver's assert at xcom.c:765 then fails: `Headers.HeaderFits`.
- A failed validation and an empty body both have size 0, so an empty body passes for every signature
  (xcom.c:701-706), and the stub then reads what is not there: `Validator.AcceptedUnchecked`.
- The validator looks at the last byte of a string only. A body with a zero inside a text is accepted, and the
  assert of its reader (stm.c:16) fails: `ValueStreams.ReadMessage`.
- An object can be told of a destruction after its own, with a null pointer (main.c:347-350), which the handlers at
  xcom.c:1057 and xsrv.c:206 use: `Notices.NullIfRunning`, `Notices.NullNotice`.
- A client refuses every message for which it would have to make an object, since the first test at
  xcom.c:733 holds for both sides; docs/protocol.html gives the server ids for such objects.
- A server refuses the id of a client's last oid, 31999.
- Of a list of exported interfaces only the first name finds anything, since each later piece begins with its comma
  (xcom.c:464), and it finds every imported name that it begins: `Exports.Handshake`.
- The letters c, f and d of docs/protocol.html are unknown to the code: `Signatures.LetterSizes`.
- A reply on its way when the client deletes its relay makes the client close the connection: `Peers.ReplyMeetsDelete`.
- A relay destroyed before its first message addresses its delete notice to broadcast (xcom.c:1023-1028); from a client
  that ends the whole connection on the other side: `Relays.Relay.Destroy`, `Connections.QueuedToBroadcast`.
- A received delete does not remove a connection from the table; only a sent one does.
- Oids are not held to the declared last oid, 31999: they go on to the end of the 16-bit range and then wrap to 0, which
  is broadcast.
- A body may end before the padding of its last string or array and still pass the sender's check; the
  receiver recovers a larger size: `Validator.ShortBody`.

## Hypotheses

- A proxy's source is alive, under construction or broadcast; its destination is neither broadcast nor the source.
- An object has at most 16 callers, the size of the array at main.c:338. The code does not see to it: an `Extern` has
  one caller for each relay (xcom.c:985), so 17 relays are too many for its destruction.
- Destructors do not touch the map; constructors insert links and do nothing else to it; handlers of
  `object_destroyed` mark objects unused. A handler given a null pointer does not mark that: the flag would go to the
  first link without an object (main.c:297-299), which no turn of the cleanup loop clears (main.c:326), so the loop would
  come back to it without end. The step at which user code acts is any number of such calls.
- Peers are well-formed: headers that pass the sender's assert, padded to 8, extids of 16 bits, bodies below 4 GB, no descriptor.
- The oids of relays are at most 31999, the declared last oid.
- A message body begins at an address that is a multiple of 8, in memory that is a multiple of 8 (msg.c:16).
- An object with an error has an oid; a relay is sent messages under its own oid.

## Model

| member | source | states |
|---|---|---|
| Links.InsertIntoBlock | main.c:168-180 | A new link goes behind all older links to the same destination and changes the order of no other block: creation order inside each block. |
| Links.InsertOrdered | main.c:168-180 | Insertion keeps the map sorted by destination, with an object pointer only on the first link of a block and on one link. |
| Links.DoomedIsLeast | main.c:321-360 | The objects reached from the destroyed one along object-carrying links are the least set that holds it and is closed under creation. |
| ObjectMaps.ObjectMap.LowerBound | main.c:201-212 | The binary search ends at the boundary between smaller destinations and the rest. |
| ObjectMaps.ObjectMap.FindDestination | main.c:232-238 | The binary search finds the first link of the block, the one a linear scan finds, or nothing when the scan finds nothing. |
| ObjectMaps.ObjectMap.LinkForProxy | main.c:214-222 | The oldest link with this source and destination, or none exactly when the map has none. |
| ObjectMaps.ObjectMap.LinkForObject | main.c:224-230 | The first link with the pointer, or none when no link has it. |
| ObjectMaps.ObjectMap.CreateProxyTo | main.c:168-180 | The new map is the old one with the link inserted behind its block; the step is one of the map's runs and keeps the invariant, liveness and the limit of callers. |
| ObjectMaps.ObjectMap.CreateProxy | main.c:150-165 | The oid is the first one unused from the smallest destination on, duplicates included, and it wraps to 0 if and only if all oids from there to the last 16-bit value are in use. |
| ObjectMaps.ObjectMap.ObjectDestroyed | main.c:346-351 | A handler is called with the pointer in the link found, which can be null, and may mark any objects unused and nothing else; the call is logged with its pointer. |
| ObjectMaps.ObjectMap.MarkUnused | main.c:295-300 | Exactly the first link with the pointer gets the flag, and no link without an object ever does. |
| ObjectMaps.ObjectMap.CollectCallers | main.c:338-345 | The array of 16 is enough if and only if the object has at most 16 callers; then it holds the non-broadcast sources of all links to the object, in map order. |
| Cascades.CallersAreSources | main.c:341-345 | The callers of an object are exactly the sources, other than broadcast, of the links to it. |
| Externs.RelaysAreCallers | xcom.c:983-986 | Every relay is a caller of its `Extern`, so a connection with more than 16 relays breaks that bound. |
| ObjectMaps.ObjectMap.TellCallers | main.c:337-352 | After the destructor, each caller that still has a link is told once for each of its links, in map order: of this object, and with the pointer in the first link to the caller, which is null exactly for an object whose own cascade is running. |
| Notices.ToldInOrder | main.c:346-351 | The notices are those of the callers that have a link, one for each and in their order, each with the oid destroyed and the pointer in the first link of the caller. |
| Notices.NullIfRunning | main.c:347-350 | A caller is told with a null pointer if and only if it is destroyed and its cascade is still running. |
| Notices.CascadeGrounded | main.c:353-359 | When a cascade ends, every source left in the map is alive or destroyed by an outer cascade that still runs. |
| Cleanups.NoNullNotice | main.c:346-352 | When no object that is destroyed has a link without an object to another that is, every notice has a pointer. |
| Notices.NullNotice | main.c:347-350 | A valid map in which retiring an object calls its own handler with a null pointer. |
| Notices.TwoLinksAreReached | main.c:150-180 | A run of the map leads to that map. |
| ObjectMaps.ObjectMap.EraseLinksFrom | main.c:353-359 | The loop that starts over after every recursive removal ends with the closed form of the cascade. |
| ObjectMaps.ObjectMap.DestroyObject | main.c:321-360 | Destroys exactly the objects created directly or indirectly by the object, each once and the object first; the map is left filtered to links that leave none of them, in unchanged order. |
| ObjectMaps.ObjectMap.DestroyLinkAt | main.c:182-191 | The same cascade on the map without the link; a link without an object is only erased. |
| ObjectMaps.ObjectMap.DestroyProxy | main.c:193-199 | Removes the oldest link of the proxy with its cascade, or changes nothing when there is none; flags come only from marks and go only with their objects, every notice is of an object destroyed here, and one without a pointer goes only to such an object. |
| Cascades.CascadeStep | main.c:354-359 | One turn of the restart loop, with the whole recursive cascade it causes, keeps the loop invariant. |
| Cascades.CascadeEnds | main.c:354-359 | When no link leaves the root the destroyed objects are all and only those reached from it. |
| Worlds.CascadeLive | main.c:321-360 | After a cascade the live objects are the former ones outside the destroyed set. |
| Worlds.StepKeepsValid | main.c:168-191 | Every step (new proxy, construction begun and ended, proxy destroyed, object retired, objects marked) keeps the map invariant. |
| Worlds.RunsAreValid | main.c:55-65 | After every run the map is sorted, sources are alive or broadcast, every creator is older than its object, and the objects created are those destroyed and those alive. |
| Worlds.ChainFollows | main.c:643 | The chain an error travels is the object, its creator, the creator's creator and so on to an object created by broadcast; it is empty only when the object has no link. |
| Worlds.ChainIsAcyclic | main.c:628-644 | A creator chain has no object twice, so error forwarding ends. |
| Worlds.AskedInOrder | main.c:628-644 | All the objects of a chain are asked in turn, each about the one before it; only the first can be missing. |
| ObjectMaps.ObjectMap.ForwardError | main.c:628-644 | The error is offered to the live objects of the creator chain, in order, each told which object below it failed, up to the first that accepts; handled if and only if one accepts. |
| ObjectMaps.ObjectMap.Construct | main.c:302-310 | Whatever links a constructor inserts, blocks only grow at their ends and no pointer is shared. |
| ObjectMaps.ObjectMap.FindOrCreateDestination | main.c:409-421 | The constructor runs at most once, exactly when the block exists without an object; its pointer is stored in the first link of the block, found again after the constructor changed the map. |
| ObjectMaps.ObjectMap.CreateObject | main.c:312-319 | Makes a live object of a new oid with broadcast as its creator, unless the oids are used up. |
| Settling.RetireSettles | main.c:364-369 | Destroying one flagged object in place changes the settled form of the map by exactly its set of created objects. |
| ObjectMaps.ObjectMap.DestroyUnusedObjects | main.c:362-371 | The restart loop ends with no flag left. The objects destroyed are exactly those flagged before or marked meanwhile and what they created, each once; the map is the old one without what they owned; every notice is of an object destroyed in this cleanup, and a handler is called without a pointer only for such an object, through a link that carried no object. |
| Cleanups.CleaningGoesOn | main.c:364-369 | One turn of the loop, with the whole cascade and all marks it causes, keeps that. |
| Cleanups.CreatorIsNotDoomed | main.c:321-360 | Destroying an object never destroys the one that created it. |
| ObjectMaps.ObjectMap.Reset | main.c:517-521 | Empties the map and destroys every live object exactly once; every notice is of one of them. |
| MessageLoops.MessageLoop.Deliver | main.c:462-481 | A message is dispatched exactly when its destination has a link, to the object of the first link: the one there, or, made at most once on the way, a new one with a pointer of its own; otherwise it is skipped with nothing changed. An error that is there afterwards is offered along the creator chain of the destination, and is left exactly when no object of it accepts. |
| MessageLoops.MessageLoop.DoMessageQueues | main.c:459-488 | All messages sent during the round, and only those behind the older output, are the next input; each message of the input is handled in order and freed once. A round stops before its end, and the loop is broken, if and only if its last delivery left an error unhandled, and that quits; a user's request to quit does not stop it. |
| MessageLoops.MessageLoop.EventLoop | main.c:563-585 | Over every run of the main loop what was queued is what was freed and what waits; every message freed was handled, in order, unless an unhandled error broke a round, and then nothing is delivered after it; what was queued before is freed after two rounds; the loop stops after the first round that ends quitting; when it ended by itself nothing that was ever queued is left; and each round leaves no object marked. |
| MessageLoops.MessageLoop.Idle | main.c:570-585 | Signals and timers only add messages, exactly the objects flagged or marked and what they created go, and the loop is ended here if and only if nothing is queued and no timer is left. |
| MessageLoops.MessageLoop.LoopOnce | main.c:589-595 | The messages of timers, one round as above and idle cleanup: exactly the flagged objects and what they created go, and the result says whether messages wait. |
| MessageLoops.MessageLoop.Reset | main.c:517-533 | Every queued message is freed once over the whole life of the queues, and every object destroyed once. |
| Bytes.Ceilg | util.h:28-29 | The least multiple of the grain that is not below the number. |
| Bytes.DivideCeil | util.h:30 | The least quotient whose product reaches the number. |
| Bytes.ValueOfLittleEndian | stm.h:54-82 | Reading the little-endian bytes of a number that fits gives the number. |
| Bytes.LittleEndianAt | stm.h:72-82 | Byte i of an integer has the weight 256 to the i. |
| Bytes.LittleEndianOfValue | stm.h:54-70 | Any bytes are those of their value, so no two rows of bytes have the same one. |
| Streams.RStm.ReadPod | stm.h:54-59 | The value of the bytes at the cursor, which moves past them. |
| Streams.RStm.ReadString | stm.c:8-18 | On every string that the validator accepts: the text up to its terminator with the cursor behind the padding, or a failed assert exactly when there is a zero inside the text. |
| Streams.WStm.WritePod | stm.h:72-77 | The little-endian bytes go to the cursor, and nothing else in the buffer changes. |
| Streams.WStm.WriteAlign | stm.h:90-93 | Zero bytes up to the multiple of the grain, and nothing else changes. |
| Streams.WStm.WriteString | stm.c:20-28 | Size with terminator, text, terminator and padding; a zero size alone for an empty text. |
| Streams.SizeString | stm.h:95-98 | The size announced for a string is the number of bytes its writer writes. |
| ValueStreams.WriteMessage | msg.c:9-18 | The writes of all values of a method into a begun message give exactly the layout of the values, padded with zeros as it goes over the wire. |
| ValueStreams.ReadMessage | stm.c:8-18 | For every body that the validator accepted, whoever made it: the reads give the values in it, inside its size, if and only if no text has a zero inside; otherwise an assert fails. |
| ValueStreams.WrittenIsRead | msg.c:9-18 | What the writers made meets that condition and holds the values written. |
| ValueStreams.ZeroInsideText | stm.c:16 | A body of eight bytes that the validator accepts and the reader does not. |
| ValueStreams.WriteElem | stm.h:72-93 | One argument written value by value, with the padding of arrays and structs, is its layout. |
| ValueStreams.ReadElem | stm.h:38-59 | One argument of an accepted body read value by value is the argument in the body, and the cursor stops where the validator did, if no text of it has a zero inside. |
| Marshalling.AcceptAll | msg.c:107-173 | The layout check accepts the layout of any values at their exact end if and only if every fixed-size field is aligned to its size. |
| Marshalling.RecoverAll | stm.h:54-70 | Decoding the layout of values gives the values. |
| Marshalling.RoundTrip | msg.c:107-173 | Values written are accepted with exactly the bytes written, whatever follows, if and only if every fixed-size field is aligned, and then they are read back unchanged. |
| Layouts.AcceptedIsLaid | msg.c:107-173 | For any bytes, signature and values: the layout check ends at a place and the values are those read if and only if the values are laid out there up to that place, with any bytes in the padding, the last padding possibly missing, and an empty string as no bytes or one. |
| Layouts.RefusedIsNotLaid | msg.c:162-173 | A body is refused exactly when no values at all are laid out in it. |
| Marshalling.TextLayout | stm.c:20-28 | A string is its size with terminator, its bytes, the terminator and zeros to a multiple of four. |
| Marshalling.EmptyText | stm.c:20-28 | An empty string is a count of zero and nothing else. |
| Marshalling.ArrayLayout | msg.c:124-158 | An array is its count, its elements and zeros to a multiple of four. |
| Validator.SigElementSize | msg.c:58-66 | The size of a letter, 0 for letters of compound elements. |
| Signatures.LetterSizes | msg.c:58-66 | Of the letters in docs/protocol.html the code knows all but c, f and d, each with the size of its C type, and no others. |
| Validator.SkipOneSigElement | msg.c:68-78 | Stops behind one letter, or behind the closing parenthesis of a struct. |
| Validator.SigAlignment | msg.c:80-96 | The size of a fixed letter, 4 for counts, and the largest of its members for a struct. |
| Signatures.AlignIsLargest | msg.c:86-93 | A struct is aligned like its most aligned member. |
| Validator.ReadPadding | msg.c:98-105 | Skips the padding of a size if all of it is there, and nothing otherwise. |
| Validator.ValidateSigElement | msg.c:107-160 | Recursive descent: ends, stays in the buffer, reads no misaligned count, and gives the size of the element and the places behind it exactly when the layout check accepts, else 0. |
| Validator.ValidateCounted | msg.c:124-158 | The string and array case, with the shortcut for fixed-size elements. |
| Validator.ValidateStruct | msg.c:116-123 | The struct case: members one by one, then padding to the alignment. |
| Signatures.RowsFit | msg.c:143-148 | An element count that passes is bounded by the bytes that the elements take. |
| Validator.ValidateSignature | msg.c:162-173 | For every buffer the result is where the layout check ends, and 0 when it fails: never past the end, and a nonzero result is the bytes the cursor advanced. |
| Validator.RecoverSize | xcom.c:700-706 | A body with a layout is taken, with the size of the layout, if and only if it is a multiple of eight and less than eight bytes longer; any other body is refused, except an empty one. |
| Validator.SizeTest | xcom.c:702 | The rounding test passes if and only if the body is padded to a multiple of eight by fewer than eight bytes. |
| Validator.SurplusRefused | xcom.c:702-705 | Eight or more bytes behind the layout are always refused, whatever they are. |
| Validator.AcceptedUnchecked | xcom.c:700-706 | A body that fails the layout check is let through if and only if it is empty and the signature is not. |
| Validator.EmptyBodyExample | xcom.c:701-702 | An empty body passes for a method with an integer argument. |
| Validator.SizeRecovery | xcom.c:700-706 | A body padded for the wire is accepted with the exact size the sender had if and only if its fixed-size fields are aligned; otherwise it is refused. |
| Validator.ShortBody | msg.c:98-105 | A body that stops before its last padding passes the sender's own check, but the receiver recovers its size rounded up to four. |
| Wire.Delimited | xcom.c:289-294 | The start of a stream determines its first message and where it ends. |
| Wire.FieldsOf | xcom.c:289-294 | Of the eight fixed bytes the first four are the body size, two the extid, one the descriptor offset and one the header size. |
| Wire.UniqueQueue | xcom.c:289-294 | A byte stream is the encoding of at most one queue of messages. |
| Wire.CutIsUnique | xcom.c:546-655 | The number of whole messages in a prefix of a stream and the piece behind them depend on the bytes alone. |
| Headers.HeaderFits | xcom.c:765 | The padded header of every message that passes the sender's assert fits the buffers and the one-byte size; the assert of the receiver's lookup then holds if and only if the header has at most 240 bytes before padding. |
| Headers.MarshalHeader | xcom.c:838-848 | The header buffer holds body size, extid, descriptor offset and header size at their places, the three strings and zero padding, the same at every call. |
| Headers.InterfaceByName | main.c:393-407 | The first interface of that name in the tables in order of registration, then the default one, or none when no name matches. |
| Headers.LookupInterface | xcom.c:762-769 | None when the last header byte is not a terminator, otherwise the search by the name in the buffer. |
| Headers.LookupMethod | xcom.c:781-802 | The index of the first method whose name and signature are those in the header, or invalid when the strings pass the header size or match none. |
| Headers.MethodRoundTrip | xcom.c:781-802 | The method the sender meant is found if and only if the header size in the buffer covers its strings. |
| Headers.UnknownMethod | xcom.c:795-801 | A method that the interface does not have is never found. |
| Headers.InterfaceRoundTrip | xcom.c:762-769 | The receiver finds the interface that the sender meant if and only if it is the first of its name in the order of search. |
| Headers.NamesSuffice | main.c:393-407 | It is when a name stands for one interface, in however many tables of factories that interface is. |
| Writers.Writer.Sent | xcom.c:878-914 | One send of any size: what was written grows by the bytes taken, a message leaves the queue exactly when it was sent whole or has no body, and bytes go missing exactly when a message without body is cut. |
| Writers.Writer.FaithfulIffNothingMissing | xcom.c:832-917 | The stream is the removed messages and the first bytes of the next if and only if no message without body was cut in its header. |
| Writers.Writer.Writing | xcom.c:832-917 | Whatever sendmsg answers: a prefix of the queue leaves it, in order; every transfer moves at least one byte; the loop stops only with the queue empty or the socket blocking or closed; and the result says whether to wait for it. |
| Writers.Writer.Gather | xcom.c:838-858 | The two buffers offered are the encoding of the message from the place reached. |
| Readers.Reader.Offer | xcom.c:554-566 | The lengths offered are the rest of the header, the rest of the body and one fixed header, or the rest of the fixed header; the assert on the message holds. |
| Readers.Reader.ValidateMessageHeader | xcom.c:660-669 | Accepts exactly sizes that are multiples of 8 and a descriptor offset inside the body. |
| Readers.Reader.Receive | xcom.c:577-653 | One receive of any size keeps the reader in step with the stream if and only if no message without body is cut in its header; it hands on exactly the completed message, and the header size its lookups read is that of the next message when its whole fixed header arrived too. |
| Readers.Reader.Progress | xcom.c:617-653 | A completed message is handed on, the header strings are cleared and the next message begins when its fixed header is whole; the asserts hold. |
| Framing.ChunksDoNotMatter | xcom.c:546-655 | Two readers given the same bytes in different pieces have handed on the same messages and hold the same part of the next. |
| Framing.Transfer | xcom.c:546-917 | End to end: for messages queued at any time between any sends and receives of any sizes, the messages handed on are the first ones queued, unchanged and in order, and all that were queued when nothing is left on the way. |
| Framing.TransferAll | xcom.c:546-917 | An exchange in pieces of any sizes that goes on to its end delivers every message, in order and unchanged. |
| Deliveries.RecordPasses | xcom.c:764-767 | In a message handed on, the last header byte is a terminator, and the assert on the bytes read holds exactly up to 240 bytes. |
| Deliveries.CallArrives | xcom.c:687-706 | In a message handed on the interface is found, the method is found if and only if the header size read covers its strings, and the body gives back the sender's size and values. |
| Deliveries.TakeCall | xcom.c:687-706 | The three checks and the reads on a message handed on give the interface, the method and the values that the sender had if and only if the header size read covers the strings, and refuse it otherwise. |
| Deliveries.MethodsFound | xcom.c:781-802 | When no following header is shorter than the strings need, every method is found. |
| Deliveries.ShorterHeaderBehind | xcom.c:783 | With a shorter header read behind it, the method of a valid message is not found. |
| Deliveries.ShorterHeaderExample | xcom.c:561-562 | Two sendable messages for which that happens. |
| Deliveries.LongHeaderExample | xcom.c:765 | A message that the sender lets pass and whose header of 241 bytes fails the receiver's assert. |
| Connections.MintedApart | xcom.c:281-287 | For every 16-bit oid: when the id of a client and of a server relay is that of the `Extern` object, when it wraps and when it is in its range; different relays of a side have different ids. |
| Connections.IdsMeet | xcom.c:281-287 | The id of a client relay is that of a declared server relay if and only if its oid is in the range of the server's ids. |
| Connections.QueuedKeeps | xcom.c:807-830 | Sending keeps extids and oids distinct; a message has the extid of the other `Extern` if and only if it is sent by the `Extern`; else it uses the connection of the relay or adds one under the minted id, and a delete message removes just that one. |
| Connections.AdmittedKeeps | xcom.c:712-748 | Receiving keeps extids and oids distinct, and a message reaches only a relay connected under its extid. |
| Connections.Verdicts | xcom.c:712-748 | Exactly which messages are the other `Extern`'s own, which reach which relay, which are ignored and which are refused. |
| Connections.CreationsAdmitted | xcom.c:718-744 | A message makes a new relay if and only if the receiver is a server, the id is unconnected and below the client's last, the interface is exported and not COM; a client never makes one. |
| Connections.MintedButRefused | xcom.c:733 | An id minted by a server is refused by its client, and one minted by a client by its server exactly for the last oid. |
| Externs.Extern.ConnByExtid | xcom.c:671-677 | The first connection with the extid, or none. |
| Externs.Extern.ConnByOid | xcom.c:679-685 | The first connection of the relay, or none. |
| Connections.QueuedToBroadcast | xcom.c:812-826 | A delete message to broadcast leaves the connections as they are and a proxy behind, and from a client it has the extid of the other `Extern`. |
| Externs.Extern.QueueOutgoingMessage | xcom.c:807-830 | On the real map: extid zero for its own messages, else finds or adds the connection and its proxy, returns the extid, removes the connection on a delete, and keeps the invariant if and only if the message is not to broadcast. |
| Externs.Extern.ValidateMessage | xcom.c:712-748 | On the real map: the verdict on an incoming message, as `Connections.Verdicts` has it, and a relay under an oid that no link of the map goes to. |
| Externs.ProxiesStay | main.c:182-191 | No step of the map short of destroying the `Extern` or one of its proxies takes a proxy from it, so oids of relays are never given away. |
| Peers.StepKeeps | xcom.c:687-830 | Every send, receive and map step of either side keeps the two-sided invariant and takes back nothing. |
| Peers.RoutingIsSafe | xcom.c:687-830 | After every run of two peers: ids are distinct, a message that reached a server relay came from the client relay it was made for, a reply that reached a client relay came from a server relay made for it, and each direction delivers in order without loss or doubling. |
| Peers.ExternToExtern | xcom.c:712-754 | Over all runs: what the `Extern` of one side sends is handled by the `Extern` of the other, and what a relay sends never is. |
| Peers.SendsOne | xcom.c:807-830 | Each send puts one message behind the others, and gives it the extid of the other `Extern` if and only if the `Extern` sent it. |
| Peers.ServerHandles | xcom.c:712-748 | The message at the head is taken, and which of the four verdicts the server gives depends only on its sender, its interface and the connections there are. |
| Peers.ClientHandles | xcom.c:712-748 | The same for the client. |
| Peers.ClosedForGood | xcom.c:625-627 | A side that refused a message neither takes nor sends another in the rest of the run. |
| Peers.BoundForLife | xcom.c:737-741 | A server relay stands for the same client id for the life of the connection. |
| Peers.DeletedGetsNothing | xcom.c:822-826 | After a server relay sent its delete message nothing reaches it, even when its id is used again. |
| Peers.RoutedBack | xcom.c:717-747 | A reply from the relay that a client relay reached is delivered to that client relay or to none. |
| Peers.ServerRefuses | xcom.c:717-736 | The server closes the connection exactly on a message that needs a new relay for an interface it does not export or from the last oid. |
| Peers.ClientRefuses | xcom.c:717-736 | The client closes the connection exactly on a message that is not for COM and not for one of its relays. |
| Peers.ReplyMeetsDelete | xcom.c:822-826 | A run in which a reply on its way when the client deletes its relay closes the connection. |
| Relays.Relay.ComMessage | xcom.c:990-1009 | The first message makes a proxy on the map to a new object, if there is none. A message of the local object goes out through the `Extern` under the relay's extid, and any other goes in; its body is owned by exactly one message afterwards. Without a connection it fails and keeps its body. |
| Relays.Relay.Forward | msg.c:34-45 | The new message takes over body and size and the old one has none. |
| Relays.Relay.Error | xcom.c:1033-1052 | Handled if and only if the failed object is the local one and the other side is there; then the connection table has the relay, and else it is unchanged. |
| Relays.Relay.Destroy | xcom.c:1011-1031 | If the other side is still there, the notice goes out under the relay's extid and its connection, and no other, leaves the table; before the first message the connection stays instead, the map is broken, and a client's notice has the extid of the other `Extern`. |
| Relays.OthersKeep | xcom.c:717-830 | Messages of other relays and of the other side leave a relay's connection, or its lack of one, as it is. |
| Relays.LifeUnderOneId | xcom.c:717-830 | Among any messages of other relays and of the other side, all that a relay sends in its life goes under one extid, the notice of its end included; after that no connection of it is in the table, then or later. |
| Relays.ConnectedUntilLost | xcom.c:1054-1078 | A relay is connected exactly until it is told that its other side is gone, and keeps its local object all its life. |
| Relays.SilentWhenLost | xcom.c:1014-1021 | A relay without its other side sends nothing there again. |
| Relays.DeleteIsLast | xcom.c:1011-1031 | In a whole life the delete notice is sent once and last if the other side is still there, and never otherwise. |
| Relays.AllPassed | xcom.c:1001-1008 | While the other side is there every message is passed on once and in order, each in its direction. |
| Relays.FirstGoesIn | xcom.c:997-1003 | The message that makes the local object goes to that object, and so does all that comes later but for what the object sends. |
| Relays.AllErrorsPassed | xcom.c:1033-1070 | While the other side is there it learns of every error of the local object, and the local object of every error of the other side. |
| Relays.NoOtherErrors | xcom.c:1033-1070 | Then there are no other errors, and no message fails. |
| Relays.UnusedWhenTold | xcom.c:1054-1078 | A relay is marked for cleanup exactly when its other side was destroyed or it was told of any destruction. |
| Exports.ExportList | xcom.c:401-406 | The names joined by commas. |
| Exports.ComExport | xcom.c:452-465 | Finds exactly the imported interfaces whose names begin with what stands before the first comma, in order. |
| Exports.Handshake | xcom.c:452-465 | What is found is what the other side exports if and only if, besides its first name, just those imported interfaces are exported whose names begin with that name. |
| Exports.SecondNameIsLost | xcom.c:457-464 | Two interfaces are exported, and the second, which is imported, is not found. |
| Vectors.Vector.Reserve | vector.c:9-22 | Room for the size, less than twice of it when the vector grew, old contents kept and new memory zero; counts the copies. |
| Vectors.PushesAreCheap | vector.c:9-22 | Appending n elements one by one to an empty vector copies fewer than 2n, one fewer than the memory then held. |
| Vectors.Vector.EmplaceN | vector.c:43-53 | Zero elements put into the sequence at a place. |
| Vectors.Vector.InsertN | vector.c:61-66 | A sequence put into the sequence at a place. |
| Vectors.Vector.Insert | vector.c:55-59 | One element put into the sequence at a place. |
| Vectors.Vector.EraseN | vector.c:68-75 | The sequence without the elements from a place on. |
| Vectors.Vector.PushBack | vector.h:63-64 | Appends, and follows the count of copies of repeated appending. |
| Vectors.Vector.Resize | vector.h:88-91 | The size asked for; elements beyond the old size are those left in memory or zero. |
| Vectors.Vector.Swap | vector.c:77-86 | Exchanges the two vectors whole. |
| Vectors.Vector.Bound | vector.c:96-108 | A binary search that finds the dividing place whenever there is one. |
| Vectors.Vector.InsertSorted | vector.h:92-96 | Keeps a sorted vector sorted, and puts the new element last among its equals (stable). |
| Vectors.InsertedInOrder | vector.h:92-96 | The same for sequences: sorted, and each class of equal elements keeps its order. |

## Left out

- Sockets, poll, fork, credentials, descriptor passing, signals, logging and path search: foreign calls. Of the socket
  there are the bytes that each call moves, and for `sendmsg` the other answers; errors and end of file of `recvmsg` are left out.
- `timer.c`, `io.c`, `xsrv.c` and `app.c`: thin stubs and small loops, which would only add easy members.
- Signatures that the validator does not handle consistently: structs outside arrays, nested structs,
  arrays of arrays, arrays of elements aligned to 8, empty structs; and the letters `c`, `f` and `d`, which the documentation lists
  and the code does not know.
- The export list: the buffer of 256 bytes at xcom.c:402, and the byte in front of it that an empty list overwrites.
- `vector_copy`, which copies bytes instead of elements; `vector_sort`, `vector_link` and `vector_attach`.
- Malformed headers, and descriptor offsets that change between partial writes.
- The spin lock and threads: queueing is atomic.
- Constructors that make objects at once or destroy proxies, and handlers that destroy their own proxy.
- The debug checks of queued messages (main.c:430-452) and the choice of factory and dispatch table (main.c:373-391).
- Messages that other relays than those of the two peers hold in local queues: a peer's relay may send at any time.
- MessageLoops.MessageLoop.Dispatch: does not create objects or forward errors inside a user's method; it sends, makes and destroys proxies, marks objects, quits and fails.
- Framing.Transfer: does not cut the header of a message without body, because the code then loses its place in the stream.
- Peers.RoutingIsSafe: speaks of relays by oid; a relay made anew under the same oid is the same relay to the other side.
