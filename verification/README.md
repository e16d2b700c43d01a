# Verified model of two wire-protocol decoders

This project models, in Dafny 4.11, how the library decodes what a MySQL and a PostgreSQL server send back,
and how it encodes what it sends to PostgreSQL. It proves that the resumable decoders do what a simple
reading of the whole byte stream would do. `dafny verify dfyconfig.toml` checks everything.

Both decoders are hand-written state machines that can stop in the middle of any field, because the network
cuts the stream anywhere. Both are built the same way, and so is the model:

- **Fields.** A field parser takes a byte at a time (`Machine.Step`). `Machine.ScanField` is that reading over
  the bytes at hand; the methods in `PgFields` and `MyFields` are the source's operators, with their loops and
  cursors, proved to stop where the scan stops, in its state.
- **Messages.** A control says which field of which message comes next and what is decoded so far
  (`Machine.Machine`, `PgMessages.BODY`, `MyPackets.PAYLOAD`). The on_body functions and packet parsers are methods
  proved against it.
- **Frames.** A declared length bounds a message (`Machine.Body`); `PgFrame` and `MyFeed` add the headers.
- **Conversations.** `execute`, `oneshot` and `simple_query` are automata over messages (`Conversation`); the MySQL
  query is a stage machine over payloads (`MyFeed`, `MyQuery`). The operations and the connection are classes,
  with the members and cursors of the source.

At every layer a `Split` lemma says that the bytes may be cut anywhere. Against the decoders stand encoders, written
from the protocol documents (PostgreSQL 16, chapter 55; MySQL Client/Server Protocol), and lemmas in both
directions: what is encoded is decoded to what it was and nothing beyond it is touched, and whatever is accepted is such
an encoding (for MySQL, one whose integers and lengths have any width, as the parser accepts them). Together they
give the refinement: an operation over any reads is its automaton folded over the list of messages in the stream. On
top of it stand the exact sets of responses: which lists of messages `execute` and `simple_query` complete on, and which
packets the MySQL decoder pauses after, each an if and only if with what is delivered (`PgExecuteResponses`,
`PgSimpleResponses`, `MyReplies`); and what is delivered when a response is refused (`PgFailures`, `MyOutcomes`).

The encoders do not use the constants of the parsers: characters, numbers and lengths of the wire formats are written
out in them, and `PgWire` states the layout of the messages, and what is accepted of them, in the protocol's own terms.

## What the proofs found

Where the code does not do what one would expect, the model follows the code, and a lemma says exactly when.

- An 8-byte length-encoded integer is shifted as a 32-bit int, so that its upper half is added to its lower
  half and both are sign-extended: the value is right exactly below 2^31 (`MyCodec.GatherLong`, `MyCodec.IntRoundTrip`,
  `MyCodec.StrRoundTrip`). The shift counts of 32 and more are undefined in C++; the model takes them modulo 32, as x86 does.
- Bytes after the end of a MySQL response make it fail if they come in the same read as its last byte, and are not looked
  at otherwise (`MyResponses.Receive`).
- In a malformed MySQL response, a definition or a row with more bytes after it in its packet stays in the result set,
  although the packet is refused for them (`MyOutcomes.FailureKeeps`).
- `simple_query` uses the whole of its response exactly when there is no error in it (`PgResponses.SimpleUses`). It completes
  on the first ErrorResponse and leaves the ReadyForQuery after it in the shared buffer: an `execute` or `oneshot` that
  follows completes with malformed_message on it, and a `simple_query` that follows takes it for its whole response,
  completes without an error, and leaves its own response for the operation after it (`PgResponses.ErrorLeavesReady`).
- `execute` accepts a description with rows and CommandComplete, the empty query, and errors at any time, and nothing else
  (`PgExecuteResponses.ExecuteResponses`); a command without rows, which ends with NoData and CommandComplete, is
  refused (`PgExecuteResponses.CommandWithoutRowsRefused`).
- AuthenticationSASL is parsed as one mechanism name, but the protocol sends a list that ends with a zero byte, so that
  every such message is refused for trailing data (`PgWire.SaslRefused`).
- A MySQL result set is read back exactly when it has fewer than 2^31 columns (`MyResponses.ReplyFollows`,
  `MyResponses.ReplyDecodes`).
- A bind parameter comes back from the row decoder unless it is 2^32 - 1 bytes or longer (`PgRequests.ParamsRoundTrip`).
- In `message_parser`, a message whose tag comes again later in the list is never parsed (`PgDispatch.DuplicateTag`); the
  jump table is right exactly for pairwise distinct tags (`PgDispatch.TableRight`), and those of the two parsers that
  connecting uses are distinct (`PgDispatch.ConnectDispatch`).

## How the source is read

- The parsers are held by value in std::variant members, so that emplacing one overwrites it. They are
  datatypes here, which the methods take and return; objects with members of their own identity (connection,
  operations) are classes.
- A read is a list element: for PostgreSQL 1 to 4096 bytes (the buffer), for MySQL any bytes. A completion is the
  returned `Outcome`; `None` is a request for another read. A read that fails is not modelled.
- Error codes: a PostgreSQL error keeps the five characters of its SQLSTATE instead of the code they are looked up to, and is
  `Server(None)` if the ErrorResponse had no 'C' field (the source leaves its member uninitialised). A MySQL error keeps its number.
- Sizes are natural numbers. Where the source's width matters it is written out: `% TWO_16`, `% TWO_32`, `% 256` for the sequence
  number, `ToInt16`, `AddShifted`.
- CLIENT_SESSION_TRACK is clear: the client does not offer it (`include/chx/sql/mysql/detail/connection2.ipp:258`).
- A payload may be up to 0xffffff bytes; a first byte 0xfe is the end of the rows only below that, as in the source.

## Model

| member | source | states |
|---|---|---|
| `Machine.ScanSplit` | include/chx/sql/postgresql/detail/basic_type.hpp:13-117 | a field cut at any byte and resumed is the same field, for every field parser of both protocols |
| `Machine.RunSplit` | include/chx/sql/postgresql/detail/msg/row_description.hpp:22-118 | so is a run over the fields of a message, also when the cut falls on a field boundary or after the end |
| `Machine.BodySplit` | include/chx/sql/postgresql/detail/basic_parser.hpp:66-87 | so is a body of declared length, with its four ways to end: decoded, incomplete, trailing data, malformed |
| `PgFields.ParseInteger` | include/chx/sql/postgresql/detail/basic_type.hpp:13-47 | the memcpy parser takes exactly its width in bytes, resumes at the byte it stopped at, and stops where the byte-wise reading stops |
| `PgFields.ParseArray` | include/chx/sql/postgresql/detail/basic_type.hpp:48-73 | the loop over single elements does the same |
| `PgFields.ParseString` | include/chx/sql/postgresql/detail/basic_type.hpp:74-93 | the strnlen parser stops after the first zero byte, which it consumes and does not keep; with a container that only counts, it counts |
| `PgFields.ParseBytes` | include/chx/sql/postgresql/detail/basic_type.hpp:94-117 | the counted byte string takes exactly the bytes that are missing |
| `PgMessages.RowDescriptionOnBody` | include/chx/sql/postgresql/detail/msg/row_description.hpp:22-118 | the eight-state parser stops where the run over its fields stops, in its state; a description that ends before its bytes has trailing data |
| `PgMessages.DataRowOnBody` | include/chx/sql/postgresql/detail/msg/data_row.hpp:24-81 | the same for rows, with the column count check, NULL cells and empty cells |
| `PgMessages.ErrorOnBody` | include/chx/sql/postgresql/detail/msg/error_response.hpp:21-64 | the same for errors: six bytes for a 'C' field, a string for any other |
| `PgMessages.NoticeOnBody` | include/chx/sql/postgresql/detail/msg/notice_response.hpp:18-45 | the same for notices, where 'C' is no special field |
| `PgMessages.AuthOnBody` | include/chx/sql/postgresql/detail/msg/authentication.hpp:40-101 | the same for authentication requests: a method number, and behind it a salt, a mechanism name, or nothing; an unknown number is malformed |
| `PgMessages.KeyOnBody` | include/chx/sql/postgresql/detail/msg/backend_key_data.hpp:21-37 | the same for the two integers of the key data |
| `PgCodec.DescriptionDecodes` | include/chx/sql/postgresql/detail/msg/row_description.hpp:22-118 | an encoded description decodes to its columns, every member in its place, and leaves what follows |
| `PgCodec.DescriptionTaken` | include/chx/sql/postgresql/detail/msg/row_description.hpp:22-118 | whatever the parser accepts is such an encoding |
| `PgCodec.RowDecodes` | include/chx/sql/postgresql/detail/msg/data_row.hpp:24-81 | an encoded row of the parser's width decodes to its cells, NULL and empty told apart |
| `PgCodec.RowTaken` | include/chx/sql/postgresql/detail/msg/data_row.hpp:24-81 | whatever the parser accepts is an encoded row of exactly its width |
| `PgCodec.ErrorDecodes` | include/chx/sql/postgresql/detail/msg/error_response.hpp:21-64 | the SQLSTATE is the first five bytes of the last 'C' field, whatever other fields there are |
| `PgCodec.ErrorTaken` | include/chx/sql/postgresql/detail/msg/error_response.hpp:21-64 | whatever the parser accepts is an encoded list of fields |
| `PgCodec.NoticeDecodes` | include/chx/sql/postgresql/detail/msg/notice_response.hpp:18-45 | an encoded list of fields is skipped, up to its end |
| `PgCodec.NoticeTaken` | include/chx/sql/postgresql/detail/msg/notice_response.hpp:18-45 | whatever the parser accepts is an encoded list of fields |
| `PgCodec.RequestDecodes` | include/chx/sql/postgresql/detail/msg/authentication.hpp:40-101 | an encoded authentication request decodes to its method, salt or mechanism, and leaves what follows |
| `PgCodec.RequestTaken` | include/chx/sql/postgresql/detail/msg/authentication.hpp:40-101 | whatever the parser accepts is such an encoding |
| `PgCodec.KeyDecodes` | include/chx/sql/postgresql/detail/msg/backend_key_data.hpp:21-37 | encoded key data decodes to process and key, each in its place |
| `PgCodec.KeyTaken` | include/chx/sql/postgresql/detail/msg/backend_key_data.hpp:21-37 | whatever the parser accepts is encoded key data |
| `PgFrame.FrameSplit` | include/chx/sql/postgresql/detail/basic_parser.hpp:23-92 | chunk invariance of the framing for every message, on every byte string: same result, same decoded message, same bytes left |
| `PgFrame.BasicParse` | include/chx/sql/postgresql/detail/basic_parser.hpp:23-92 | the method over cursors does what the framing says, on every call |
| `PgStream.FrameCodec` | include/chx/sql/postgresql/detail/basic_parser.hpp:23-92 | exact framing: a message is accepted, decoded to v and followed by rest if and only if the bytes are an encoded message of that kind that means v, and rest |
| `PgStream.WrongWidth` | include/chx/sql/postgresql/detail/msg/data_row.hpp:31-39 | a row of another width than the parser was constructed with is malformed |
| `PgStream.FrameDecides` | include/chx/sql/postgresql/detail/basic_parser.hpp:66-87 | a message is decided once as many bytes are there as its length field says: the parser never asks for more |
| `PgWire.MessageLayout` | include/chx/sql/postgresql/detail/basic_parser.hpp:23-92 | every message is its protocol character, the length of what follows it in network order, and its content |
| `PgWire.ColumnLayout` | include/chx/sql/postgresql/detail/msg/row_description.hpp:22-118 | the seven fields of a column description, in their order, widths and byte order |
| `PgWire.ReadyForQueryExactly` | include/chx/sql/postgresql/detail/msg/ready_for_query.hpp:10-30 | ReadyForQuery is accepted, as 'Z' 0 0 0 5 and a status, if and only if the status is 'I', 'T' or 'E' |
| `PgWire.AuthenticationExactly` | include/chx/sql/postgresql/detail/msg/authentication.hpp:40-101 | an authentication request is accepted if and only if it has the number 0, 2, 3, 7 or 9 and nothing behind it, 5 and four bytes of salt, or 10 and one terminated name |
| `PgWire.SaslRefused` | include/chx/sql/postgresql/detail/msg/authentication.hpp:90-100 | an AuthenticationSASL message as the protocol writes it, where something follows the first mechanism name, always fails for trailing data |
| `PgDispatch.JumpTable` | include/chx/sql/postgresql/detail/message_parser.hpp:10-23 | the table holds the last position of each tag, and -1 for a tag of no message |
| `PgDispatch.TableRight` | include/chx/sql/postgresql/detail/message_parser.hpp:10-23 | every message is found at its own position if and only if the tags are pairwise distinct |
| `PgDispatch.DuplicateTag` | include/chx/sql/postgresql/detail/message_parser.hpp:10-23 | a message whose tag comes again later in the list is never the one that is parsed |
| `PgDispatch.MessageParse` | include/chx/sql/postgresql/detail/message_parser.hpp:26-104 | the method over the table does what the dispatch says |
| `PgDispatch.DispatchSplit` | include/chx/sql/postgresql/detail/message_parser.hpp:26-104 | chunk invariance of the dispatching parser, for any list of messages |
| `PgDispatch.DispatchAgrees` | include/chx/sql/postgresql/detail/message_parser.hpp:26-104 | with distinct tags it is the single-message parser chosen by the first byte, with the same result and the same bytes left, and rejects every other tag |
| `PgDispatch.ConnectDispatch` | include/chx/sql/postgresql/detail/connect.ipp:137-139 | the two message parsers of connecting have distinct tags, so that on any bytes each is the single-message parser of the tag that comes first, and rejects every other tag |
| `PgWire.DispatchExactly` | include/chx/sql/postgresql/detail/message_parser.hpp:26-122 | with distinct tags, the dispatching parser accepts exactly the messages in its list, decoded to what they mean, and leaves what follows |
| `PgWire.AuthenticatingReads` | include/chx/sql/postgresql/detail/connect.ipp:137-138 | before authentication connecting accepts exactly authentication requests, errors, parameters and notices |
| `PgWire.SettlingReads` | include/chx/sql/postgresql/detail/connect.ipp:139 | after it exactly ReadyForQuery, key data, errors, parameters and notices |
| `Conversation.ConverseSplit` | include/chx/sql/postgresql/detail/execute.ipp:105-333 | chunk invariance of a whole operation, for any automaton and any bytes: state, parser in flight, outcome and unread bytes |
| `Conversation.ConverseKeeps` | include/chx/sql/postgresql/detail/execute.ipp:105-333 | an invariant that every tag and every message keeps holds in every reachable state |
| `PgConnection.Connection.Deliver` | include/chx/sql/postgresql/detail/execute.ipp:71-86 | a read overwrites the buffer only when nothing in it is unread; what is between the cursors is always what was received and not used |
| `PgConnection.Connection.Parse` | include/chx/sql/postgresql/detail/basic_parser.hpp:23-92 | a message parser moves the begin cursor over exactly the bytes of the message |
| `PgStream.ConverseFollows` | include/chx/sql/postgresql/detail/execute.ipp:105-333 | on the bytes of any messages an operation does what its automaton does on the list |
| `PgStream.Refines` | include/chx/sql/postgresql/detail/execute.ipp:105-333 | every byte string splits into whole messages the automaton follows and a tail without one; the operation is the fold over the messages, continued on the tail |
| `PgStream.CompletesExactly` | include/chx/sql/postgresql/detail/execute.ipp:105-333 | an operation completes with outcome o, leaving rest, if and only if the bytes before rest are messages that lead the automaton to o |
| `PgStream.FailsExactly` | include/chx/sql/postgresql/detail/execute.ipp:105-333 | an operation fails if and only if the bytes are messages its automaton goes on from and then a refused tag or a malformed message |
| `PgExecute.Execute.Choose` | include/chx/sql/postgresql/detail/execute.ipp:108-198 | the tag dispatch is the automaton's, and dereferences the current result only when it is engaged |
| `PgExecute.Execute.Absorb` | include/chx/sql/postgresql/detail/execute.ipp:199-330 | the success branches act as the automaton does, and keep the invariant |
| `PgExecute.Execute.DoParse` | include/chx/sql/postgresql/detail/execute.ipp:105-333 | the loop terminates, in exactly one read request or one completion, where the conversation over the unread bytes says |
| `PgExecute.Execute.Operate` | include/chx/sql/postgresql/detail/execute.ipp:63-86 | over any reads, after any bytes left by the operation before, the outcome, the members and the unread bytes are those of the conversation over all of them at once; no read is made after the one that decides |
| `PgExecute.ExecuteSafe` | include/chx/sql/postgresql/detail/execute.ipp:134-316 | in every reachable state: rows and CommandComplete are parsed with the current result engaged and the row parser of its width; whatever is completed has at most one entry, engaged and rectangular |
| `PgOneshot.LockStep` | include/chx/sql/postgresql/detail/oneshot.ipp:105-359 | bisimulation: from corresponding states oneshot and execute stay in corresponding states on every byte string, with the same outcome and the same bytes left |
| `PgOneshot.Oneshot.Operate` | include/chx/sql/postgresql/detail/oneshot.ipp:69-86 | the operation over any reads is the conversation of its automaton over all their bytes; no read is made after the one that decides |
| `PgResponses.OneshotByFirst` | include/chx/sql/postgresql/detail/oneshot.ipp:105-359 | oneshot in terms of execute, for every first message and everything after it: ParseComplete is followed by an execute, an error is handled as execute handles it, a notice changes nothing, anything else is malformed |
| `PgSimpleQuery.SimpleQuery.Operate` | include/chx/sql/postgresql/detail/simple_query.ipp:49-88 | the operation over any reads is the conversation of its automaton over all their bytes; no read is made after the one that decides |
| `PgSimpleQuery.SimpleSafe` | include/chx/sql/postgresql/detail/simple_query.ipp:108-286 | in every reachable state the current result is engaged exactly between a RowDescription tag and CommandComplete, and every engaged entry is rectangular |
| `PgResponses.SimpleAccounts` | include/chx/sql/postgresql/detail/simple_query.ipp:108-286 | in every state the entries are one for each CommandComplete so far, engaged exactly when a description came since the one before it, with the rows between them in order; a refusal delivers those of the messages before the refused one |
| `PgFailures.SimpleFails` | include/chx/sql/postgresql/detail/simple_query.ipp:108-286 | whenever simple_query fails, on any bytes, it delivers malformed_message and the entries of all whole messages before the one it fails on |
| `PgFailures.ExecuteFails` | include/chx/sql/postgresql/detail/execute.ipp:105-333 | so does execute |
| `PgFailures.OneshotFails` | include/chx/sql/postgresql/detail/oneshot.ipp:105-359 | so does oneshot |
| `PgFailures.OneshotDelivers` | include/chx/sql/postgresql/detail/oneshot.ipp:105-359 | when oneshot completes, the bytes used are the messages of one response, and error and entries are those of the messages |
| `PgResponses.SimpleDelivers` | include/chx/sql/postgresql/detail/simple_query.ipp:226-253 | on every byte string it completes on: the bytes used are messages up to their only ReadyForQuery or ErrorResponse, the error is that of the ErrorResponse or none, the entries are one for each completed command, and the rest is untouched |
| `PgResponses.SimpleStops` | include/chx/sql/postgresql/detail/simple_query.ipp:226-253 | in every state, the messages it completes on end with their only ReadyForQuery or ErrorResponse, and it completes with that error or none |
| `PgResponses.SimpleUses` | include/chx/sql/postgresql/detail/simple_query.ipp:226-253 | of the messages of one response, up to its ReadyForQuery, it leaves none if and only if there is no error among them |
| `PgResponses.SimpleLeaves` | include/chx/sql/postgresql/detail/simple_query.ipp:226-253 | the same on the wire: what is left is exactly what follows the response if and only if there is no error in it |
| `PgSimpleResponses.SimpleResponses` | include/chx/sql/postgresql/detail/simple_query.ipp:108-286 | the lists of messages simple_query completes on, as an if and only if over all lists: commands with their answers, possibly an unfinished one, and one ReadyForQuery or error; with the entries and the error |
| `PgSimpleResponses.Receive` | include/chx/sql/postgresql/detail/simple_query.ipp:49-88 | the operation on any such response, partly left by the operation before and cut into any reads, completes so; unread bytes and reads not made are what follows it |
| `PgResponses.ExecuteDelivers` | include/chx/sql/postgresql/detail/execute.ipp:288-300 | when execute completes, the bytes used are the messages of one response up to its ReadyForQuery, and error and entries are those of the messages |
| `PgExecuteResponses.RepeatedExactly` | include/chx/sql/postgresql/connection.hpp:22-23 | n executes that each go on where the one before it stopped complete if and only if the byte string begins with n responses that execute completes on, and leave exactly the rest |
| `PgExecuteResponses.RunExecutes` | include/chx/sql/postgresql/connection.hpp:22-23 | n execute operations on one connection with reads in between: all complete if and only if the bytes begin with n responses that execute completes on; then the bytes they had are n responses, each with its outcome, and what is unread: no byte is lost or used twice |
| `PgResponses.QuietIgnored` | include/chx/sql/postgresql/detail/execute.ipp:213-227 | leaving out messages that an automaton does nothing with (the notices) changes nothing but the ones left |
| `PgExecuteResponses.ExecuteResponses` | include/chx/sql/postgresql/detail/execute.ipp:113-330 | the lists of messages execute completes on, as an if and only if over all lists: what it can be told, then ReadyForQuery if the command is complete, or errors and ReadyForQuery at any time; with the last error and the entry |
| `PgExecuteResponses.ErrorExactly` | include/chx/sql/postgresql/detail/execute.ipp:188-190 | in every state, an ErrorResponse is accepted, and the response is complete if and only if errors, notices and one ReadyForQuery follow; the last error counts |
| `PgExecuteResponses.CommandWithoutRowsRefused` | include/chx/sql/postgresql/detail/execute.ipp:156-175 | NoData followed by CommandComplete is refused |
| `PgResponses.ErrorLeavesReady` | include/chx/sql/postgresql/detail/simple_query.ipp:240-253 | after any response with an error, the ReadyForQuery is left for the next operation: execute and oneshot fail on it, simple_query completes on it at once without an error and leaves its own response |
| `PgExecuteResponses.Receive` | include/chx/sql/postgresql/detail/execute.ipp:63-86 | the operation on any response execute completes on, partly left by the operation before and cut into any reads, completes so; unread bytes and reads not made are what follows it |
| `PgRequests.CreateBindMsg` | include/chx/sql/postgresql/detail/create_msg.hpp:15-40 | the three parts, filled through the advancing pointer, are one Bind message whose length field counts all of them, modulo 2^32 as computed |
| `PgRequests.CreateParseMsg` | include/chx/sql/postgresql/detail/create_msg.hpp:57-67 | the buffer is one Parse message |
| `PgRequests.CreateDesMsg` | include/chx/sql/postgresql/detail/create_msg.hpp:41-56 | the 22 bytes, each of them, of Describe, Execute and Sync |
| `PgRequests.CreateQueryMsg` | include/chx/sql/postgresql/detail/simple_query.ipp:36-47 | the buffer is one Query message |
| `PgRequests.WalkStream` | include/chx/sql/postgresql/detail/create_msg.hpp:15-67 | any requests are found again by their own length fields, with nothing left over |
| `PgRequests.RequestsWalk` | include/chx/sql/postgresql/detail/oneshot.ipp:369-371 | what oneshot sends walks to exactly 'P', 'B', 'D', 'E', 'S', for every text, name and parameters that fit in 32 bits |
| `PgRequests.ParamsRoundTrip` | include/chx/sql/postgresql/detail/encode_param.hpp:11-21 | up to 65535 parameters come back from data_row if and only if each is shorter than 2^32 - 1 bytes |
| `PgRequests.BindReads` | include/chx/sql/postgresql/detail/create_msg.hpp:15-40 | read back with the client's own parsers, a Bind message holds no portal name, the statement name, no parameter formats, the parameters as a row and no result formats, in this order |
| `PgRequests.ParseReads` | include/chx/sql/postgresql/detail/create_msg.hpp:57-67 | read back so, a Parse message holds no statement name, the text and no parameter types |
| `MyFields.ParseFixed` | include/chx/sql/mysql/detail/packets/basic_types.hpp:11-35 | the loop of shifts takes exactly the missing bytes and stops where the byte-wise reading stops |
| `MyFields.ParseInt` | include/chx/sql/mysql/detail/packets/basic_types.hpp:37-83 | the operator that chooses the width and calls itself does the same; a first byte of 0xfb or 0xff is malformed |
| `MyFields.ParseStr` | include/chx/sql/mysql/detail/packets/basic_types.hpp:152-173 | the length parser and the string parser behind it do the same, also for a length of zero and for the container that only counts |
| `MyPackets.ParseErr` | include/chx/sql/mysql/detail/packets/ERR_Packet.hpp:18-79 | the fall-through switch stops where the run over its fields stops, in its state; the message ends with the final bytes |
| `MyPackets.ParseOk` | include/chx/sql/mysql/detail/packets/OK_Packet.hpp:23-119 | the same for OK packets, whose information ends with the final bytes |
| `MyPackets.ParseCount` | include/chx/sql/mysql/detail/packets/ColumnCount_Packet.hpp:12-16 | the same for the column count |
| `MyPackets.ParseColumn` | include/chx/sql/mysql/detail/packets/ColumnDefinition41_Packet.hpp:27-180 | the same for the thirteen fields of a column definition |
| `MyPackets.ParseRow` | include/chx/sql/mysql/detail/packets/Resultset_Packet.hpp:16-51 | the operator that calls itself for the next column does the same |
| `MyCodec.LenencInteger` | include/chx/sql/mysql/detail/length_encoded.hpp:19-37 | the encoder writes exactly lenenc_int_bound bytes, and nothing else |
| `MyCodec.LenencString` | include/chx/sql/mysql/detail/length_encoded.hpp:39-50 | the encoder writes exactly lenenc_str_bound bytes, and nothing else |
| `MyCodec.GatherLong` | include/chx/sql/mysql/detail/packets/basic_types.hpp:63-74 | eight shifted bytes give their little-endian value if and only if it is below 2^31 |
| `MyCodec.IntTakesEncoding` | include/chx/sql/mysql/detail/packets/basic_types.hpp:37-83 | the parser takes exactly the encoder's bytes and leaves the suffix |
| `MyCodec.IntRoundTrip` | include/chx/sql/mysql/detail/packets/basic_types.hpp:37-83 | it returns the encoded number if and only if that is below 2^31 |
| `MyCodec.StrRoundTrip` | include/chx/sql/mysql/detail/packets/basic_types.hpp:152-173 | an encoded string comes back if and only if it is shorter than 2^31 bytes |
| `MyCodec.RowDecodes` | include/chx/sql/mysql/detail/packets/Resultset_Packet.hpp:16-51 | an encoded row decodes to its cells, NULL and string told apart, and leaves what follows |
| `MyCodec.ColumnDecodes` | include/chx/sql/mysql/detail/packets/ColumnDefinition41_Packet.hpp:27-180 | an encoded definition decodes to its name and numbers, each in its place, and the skipped names do not matter |
| `MyCodec.DefinitionLayout` | include/chx/sql/mysql/detail/packets/ColumnDefinition41_Packet.hpp:27-180 | the encoded definition is def, schema, table, original table, name, original name and the numbers, in this order |
| `MyCodec.ErrDecodes` | include/chx/sql/mysql/detail/packets/ERR_Packet.hpp:18-79 | an encoded error decodes to its code, state and message, which ends where the packet ends |
| `MyCodec.OkDecodes` | include/chx/sql/mysql/detail/packets/OK_Packet.hpp:23-119 | an encoded OK packet, in either form, decodes to its flags, its information and its counts as the integer parser reads them |
| `MyAccepted.ContentTaken` | include/chx/sql/mysql/detail/com_query2.ipp:145-293 | whatever a packet parser decodes a whole payload to, the payload is such a packet with integers and lengths of any width, and means that |
| `MyAccepted.ContentAccepts` | include/chx/sql/mysql/detail/com_query2.ipp:145-293 | and every such packet is decoded to what it means |
| `MyAccepted.NameIsFifth` | include/chx/sql/mysql/detail/packets/ColumnDefinition41_Packet.hpp:27-180 | of any definition that is accepted, the column name is the fifth of its thirteen fields |
| `MyReplies.RepliesExactly` | include/chx/sql/mysql/detail/com_query2.ipp:145-293 | the lists of packets the decoder pauses after, as an if and only if over all lists: in sequence, an error or OK packet alone, or a count, as many definitions, rows of that width, and an error or the end; with names, rows and error |
| `MyReplies.PausesExactly` | include/chx/sql/mysql/detail/basic_packet.hpp:49-140 | the same over bytes: it pauses with g, leaving rest, if and only if the bytes before rest are such packets |
| `MyFeed.FeedSplit` | include/chx/sql/mysql/detail/basic_packet.hpp:49-140 | chunk invariance of framer, stage machine and parsers together, on every byte string, malformed ones included: result, state and bytes left |
| `MyFeed.FeedFailures` | include/chx/sql/mysql/detail/basic_packet.hpp:102-136 | a response fails as incomplete, with trailing data or as malformed, never with the internal error that the feed would pass on: no parser that can be entered ends in it, on any bytes |
| `MyQuery.ComQuery.OnPayloadData` | include/chx/sql/mysql/detail/com_query2.ipp:145-293 | the stage machine, called with a part of a payload, does what the parser chosen for the payload does; both ways to have bytes left over are trailing data; no assert is reachable |
| `MyQuery.ComQuery.FeedBytes` | include/chx/sql/mysql/detail/basic_packet.hpp:49-140 | the loop terminates, also on payloads of no bytes, and result, cursor and members are those of the byte-wise specification |
| `MyQuery.ComQuery.OnRead` | include/chx/sql/mysql/detail/com_query2.ipp:73-109 | a read ends in one completion or one read request, with the mapped outcome |
| `MyQuery.ComQuery.Operate` | include/chx/sql/mysql/detail/com_query2.ipp:61-109 | over any reads the outcome is that of all their bytes at once, reached at the first read that decides it |
| `MyOutcomes.Perform` | include/chx/sql/mysql/detail/com_query2.ipp:61-109 | over any reads: success if and only if the bytes heard are exactly a reply without an error, the server's error if and only if they are exactly a reply with it, malformed otherwise, and then only if bytes follow a reply or no continuation is one; it reads on only while packets of a reply and less than a packet have come |
| `MyOutcomes.FailureKeeps` | include/chx/sql/mysql/detail/com_query2.ipp:95-107 | the names and rows of a malformed response are those of all packets accepted before the malformed one; if that one is merely too long, also what it begins with |
| `MyStream.FeedFollows` | include/chx/sql/mysql/detail/basic_packet.hpp:49-140 | on the bytes of any packets the decoder does what the fold over whole payloads does |
| `MyStream.Refines` | include/chx/sql/mysql/detail/basic_packet.hpp:49-140 | every byte string is packets and an unfinished rest; the decoder is the fold over the packets, and pauses if and only if one of them ends the response |
| `MyResponses.AcceptedAreNumbered` | include/chx/sql/mysql/detail/com_query2.ipp:137-144 | the accepted packets carry the numbers from the first one on modulo 256, and the next expected number follows them |
| `MyResponses.OutOfSequence` | include/chx/sql/mysql/detail/basic_packet.hpp:76-90 | the first packet with another number is malformed, whatever it holds and whatever follows, unless the response ended or failed before it |
| `MyResponses.AlwaysRectangular` | include/chx/sql/mysql/detail/com_query2.ipp:208-289 | on every run, whatever the bytes and however it ends, every row has as many cells as the column count, no row is stored before all definitions are, and the count does not change once it is known |
| `MyResponses.OutcomesRectangular` | include/chx/sql/mysql/detail/com_query2.ipp:73-109 | whatever is completed with has one cell for each column name in every row |
| `MyResponses.RowsAreRows` | include/chx/sql/mysql/detail/com_query2.ipp:226-248 | an encoded row begins with 0xfe if and only if its first column has 2^24 bytes or more, and never with 0xff: in a packet it is never taken for an error or the end |
| `MyResponses.ReplyFollows` | include/chx/sql/mysql/detail/com_query2.ipp:145-293 | the packets of a response of columns and rows, or of an OK or ERR packet alone, mean what it holds, whatever number it starts with, if and only if it has fewer than 2^31 columns |
| `MyResponses.ReplyDecodes` | include/chx/sql/mysql/detail/com_query2.ipp:145-293 | round trip: the decoder pauses exactly at the last byte of an encoded response, with its names, its rows and its error, if and only if it has fewer than 2^31 columns |
| `MyResponses.CountMisread` | include/chx/sql/mysql/detail/com_query2.ipp:194-207 | otherwise the column count stored is a wrong one, at every later point |
| `MyResponses.Receive` | include/chx/sql/mysql/detail/com_query2.ipp:61-109 | the operation on a response cut into any reads: it completes at the read that brings the last byte, with names, rows and error; more bytes in that read are the malformed-packet error; with 2^31 columns or more it never completes with what the response holds |

## Left out

- Sockets, io_uring, completion tokens and reference counting: a read is its bytes, a completion its arguments; read and write errors are passed on unchanged by the source.
- The MySQL handshake and the PostgreSQL `connect` and `parse_query` operations; of connecting, the message parsers are modelled, but not the operation that uses them.
- The hiredis and pq directories, which wrap libraries that are not part of this model.
- The tables from SQLSTATE and MySQL error numbers to error codes.
- The session-track stages of the OK packet: the client never sets the capability that leads to them.
- MySQL payloads continued over several packets, and compression: the library does not implement them.
- The query packet the MySQL client sends: three length bytes, a number and the text.
- `oneshot` parsing what the buffer holds while its request is still being sent: only its response automaton is modelled.
- Number parameters, which are turned into text before they are encoded: parameters are byte strings.
- MyQuery.ComQuery.FeedBytes: after a failure it says what has been decoded and which result is returned, not where the framer stopped; the operation completes then.
- PgRequests.CreateBindMsg: names so long that the header length does not fit in the uint32 it is computed in are excluded.
- PgRequests.CreateParseMsg: the same, for the query text.
- PgRequests.CreateQueryMsg: the same, for the query text.
