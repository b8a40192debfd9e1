# Verified model of the mail system

A Dafny model of the protocol and codec core of a mail system: an SMTP server, an IMAP server, a desktop client,
MIME and Base64 libraries, a message store on SQLite and an asynchronous logger. Every module follows one
component. Loops and objects of the program are methods and classes; each is proved against a function or a
state machine, and the promises of the program are theorems about those.

| module | component |
|---|---|
| `Text`, `Wrappers` | `std::string` searching, trimming, case; optional values and exceptions |
| `Base64`, `Base64Stream`, `Base64StreamDecode` | batch and streaming Base64 |
| `StringUtils` | UTF-8 safe cutting, text wrapping |
| `MimeEncoder`, `MimeDecoder` | encoded words, Q encoding, quoted-printable |
| `MimeHeaders`, `Multipart`, `MimeParser`, `MimeStructure` | the MIME parser |
| `MimeBuilder`, `HeaderBlock`, `MimeRoundTrip`, `MimeMessage` | the MIME builder, and build-then-parse |
| `LineEnds`, `BareMessage`, `MailJourney` | the parser on LF text, and a message on its whole way: build, DATA, save, FETCH, parse |
| `ImapParser`, `ImapSequence`, `ImapFetch`, `ImapExpunge`, `ImapSection` | IMAP commands, sets, literals, numbering, sections |
| `SmtpSession`, `SmtpTransfer` | the SMTP session, its server loop, and DATA framing |
| `SecureChannel` | the framed, encrypted connection as a two-party protocol |
| `UidStore` | UIDs under interleaved transactions |
| `Logger` | the flush barrier of the asynchronous logger |

Conventions. A C++ `char` is a Dafny `char` below 256, a `std::string` a `string`, `npos` is `NPOS`. Integers are
unbounded; where the width matters (the message counter, `int64_t` to `int` in FETCH, `stoll`, `stoull`) it is
written out. Clock, random values, the network, the file system and the database's own failures are parameters.
Where a C++ function may throw, the model returns `Thrown`; where a loop of the program may never end, the model
returns `None` (`Hangs` in `BuildEmail`), and a theorem says on exactly which inputs.

`MailJourney.MailArrives` ties the components together: a message that the builder can print and the transfer can carry
reaches the recipient's client, which reads off it what the sender put in.

Results that a reader may not expect:

- the streaming Base64 encoder agrees with the batch encoder exactly for chunkings in which each call starts with
  no or three pending bytes or fits with the pending ones (`Base64Stream.ChunkingExact`); for every other list of
  sizes there are bytes that it reorders or drops;
- a message that Send accepts in its last 28 sizes is refused by every Receive and blocks its direction for good
  (`SecureChannel.OversizeBlocks`);
- a copy or a move that was overtaken can hand out a UID a second time (`UidStore.StaleCopyReusesUid`), although
  stored UIDs stay unique in every run;
- a rename writes the `next_uid` that it read back: a message that arrives in between blocks the folder for deliveries
  until a step takes one of its messages or the folder away or moves `next_uid` (`UidStore.StaleRenameBlocks`);
- over all runs, UIDs are strictly increasing and below `next_uid` if and only if no rename writes back a value that has
  been passed and no copy or move wins with one, or with one above `next_uid` (`UidStore.FreshExact`); in runs that skip
  no UID that means: with a `next_uid` that had changed since it was read (`UidStore.FreshIff`);
- the server keeps the dots that the client stuffs (`SmtpTransfer.SavedUnchangedIff`), contrary to section 4.5.2 of
  RFC 5321;
- a FETCH gives the client its message if and only if that holds no CR in front of an LF and no line that begins with
  the command's tag and OK, NO or BAD, and the reply has at most 10 MiB less 28 bytes (`ImapFetch.FetchDelivers`); the
  SMTP server stores messages that no client can fetch (`MailJourney.StoredNotFetched`);
- FETCH labels are right if and only if no number of the set selects anything, or there is none below 1 and none
  beyond the mailbox that the conversion to `int` brings back into it (`ImapSequence.LabelsTrueIff`);
- `EncodeHeader` never returns exactly on texts with as many UTF-8 continuation bytes in a row as its chunk size has
  bytes, behind some other byte (`MimeEncoder.ChunksStuckIff`): valid UTF-8 is safe for chunk sizes from 4, and for
  no smaller one (`MimeDecoder.ChunkSizeExact`); text that is not UTF-8 is unsafe even at the default of 45. Its words
  can be read exactly where no chunk exceeds 57 bytes (`MimeDecoder.HeaderRoundTripIff`);
- `ParseArgs` never returns exactly on texts with a closing parenthesis outside quoted strings, lists and literal
  announcements (`ImapParser.ArgumentsStuckIff`);
- a transfer of DATA has one reply, as the client expects, if and only if every line has at most 512 bytes and the text
  at most 10 MiB (`SmtpTransfer.OneReplyIff`); behind the line that exceeds 10 MiB the rest of the text is executed as
  commands (`SmtpTransfer.OversizeTransfer`);
- `WrapText` allows lines of 998 bytes, of which the server takes 512 (`MailJourney.WrappedButRefused`);
- two readers at once break the logger's flush barrier (`Logger.TwoReadersBreakBarrier`).

`MimePart.h` calls `size` the size of the decoded body; the parser stores the size of the raw body, and the model
follows the parser.

## Model

| member | source | states |
|---|---|---|
| `Base64.ChunkBytes` | base64/src/Base64Encoder.cpp:3-40 | the loop appends the unbroken encoding of the data, with a CRLF after every 76 characters that are followed by more |
| `Base64.EncodeBase64Impl` | base64/src/Base64Encoder.cpp:42-54 | the folded encoding, or an exception above the size limit |
| `Base64.BlockSextets` | base64/src/Base64Encoder.cpp:18-23 | the four indices are the 24-bit block shifted and masked |
| `Base64.BlockBytes` | base64/src/Base64Decoder.cpp:53-65 | the three bytes are the 24-bit block shifted and masked |
| `Base64.GroupRoundTrip` | base64/src/Base64Decoder.cpp:34-66 | a group of one to three bytes survives its quantum, padding included |
| `Base64.DecodeBase64Impl` | base64/src/Base64Decoder.cpp:3-68 | decodes quantum by quantum; throws on foreign characters, on a length that is no multiple of four and on padding in the first half of a quantum |
| `Base64.DecodeStripped` | base64/src/Base64Decoder.cpp:3-68 | for every data within the limit, decoding the encoding without CR and LF gives the data |
| `Base64.DecodeUnstripped` | base64/src/Base64Decoder.cpp:8-25 | with its line breaks the encoding decodes exactly when the data have at most 57 bytes, and throws otherwise |
| `Base64.EncodedInjective` | base64/src/Base64Encoder.cpp:3-40 | different data have different encodings |
| `Base64.FileSizeExact` | mime/include/Attachment.h:16-33 | the size that Attachment computes from the stripped text is the length of the data |
| `Base64Stream.Base64StreamEncoder.EncodePart` | base64/src/Base64StreamEncoder.cpp:3-29 | writes the group's quantum, breaking the line at column 76 |
| `Base64Stream.Base64StreamEncoder.EncodeStream` | base64/src/Base64StreamEncoder.cpp:31-70 | one call is one step of the encoder's function: what it writes, what it keeps, when it throws |
| `Base64Stream.Base64StreamEncoder.Finalize` | base64/src/Base64StreamEncoder.cpp:72-82 | writes the pending bytes and closes an open line |
| `Base64Stream.StreamEncodesFlow` | base64/src/Base64StreamEncoder.cpp:31-82 | for every chunking the output is the batch encoding, plus CRLF, of the bytes that flow through |
| `Base64Stream.StreamIsBatch` | base64/src/Base64StreamEncoder.cpp:31-82 | for good chunkings that is the batch encoding of the concatenation plus CRLF, empty for no data |
| `Base64Stream.ChunkingExact` | base64/src/Base64StreamEncoder.cpp:41-68 | a list of call sizes agrees with the batch encoder on all data if and only if every call is good |
| `Base64Stream.EncodeFileIsBatch` | base64/src/AttachmentHandler.cpp:14-22 | chunks of 3072 bytes are always good |
| `Base64Stream.EncodeFile` | base64/src/AttachmentHandler.cpp:3-23 | the loop over a file gives its closed batch encoding, or the exception |
| `Base64StreamDecode.Base64StreamDecoder.DecodeStream` | base64/src/Base64StreamDecoder.cpp:31-48 | the loop puts the characters one by one, blanks skipped; an exception leaves the buffer full, and then there is room for blanks only |
| `Base64StreamDecode.Base64StreamDecoder.Finalize` | base64/src/Base64StreamDecoder.cpp:51-64 | an incomplete quantum throws, a full one is decoded again |
| `Base64StreamDecode.LeftIs` | base64/src/Base64StreamDecoder.cpp:40-64 | the buffer is full behind DecodeStream if and only if that threw, and Finalize then throws the same again |
| `Base64StreamDecode.ChunksDoNotMatter` | base64/src/Base64StreamDecoder.cpp:31-48 | only the concatenation of the chunks counts |
| `Base64StreamDecode.BlanksDoNotMatter` | base64/src/Base64StreamDecoder.cpp:37-38 | line breaks, blanks and tabs do not count |
| `Base64StreamDecode.StreamDecodes` | base64/src/Base64StreamDecoder.cpp:3-64 | from the output of either encoder, under every chunking, the decoder returns the data |
| `StringUtils.FindUtf8SafeEnd` | common/utils/StringUtils.cpp:20-32 | the last cut within the window that no continuation byte follows |
| `StringUtils.SafeEndProgress` | common/utils/StringUtils.cpp:20-32 | in whole characters a window of four bytes always leaves a cut |
| `StringUtils.WrapTextImpl` | common/utils/StringUtils.cpp:34-117 | the loop terminates and computes the wrapped text |
| `StringUtils.WrapTextLaw` | common/utils/StringUtils.cpp:34-117 | lines within the limit of 1 to 998, non-blank bytes kept in order, and whole characters kept whole when the limit is at least four |
| `StringUtils.WrapNoOccur` | common/utils/StringUtils.cpp:34-117 | wrapping makes no blank-free pattern that the text lacks |
| `MimeEncoder.NeedsEncodingImpl` | mime/src/MimeEncoder.cpp:10-17 | some byte is outside 32 to 126 |
| `MimeEncoder.EncodeHeaderImpl` | mime/src/MimeEncoder.cpp:25-47 | the words of the cut text, joined by the separator, or the exception for a chunk over the Base64 limit; for sizes within it, never returns exactly where the text holds a run of continuation bytes of the chunk size |
| `MimeEncoder.ChunksStuckIff` | mime/src/MimeEncoder.cpp:34-45 | the loop stands still if and only if, behind some byte, as many continuation bytes follow each other as the chunk size says |
| `MimeDecoder.DecodeQEncoding` | mime/src/MimeDecoder.cpp:48-81 | the loop computes the decoding of escapes and underscores |
| `MimeDecoder.DecodeQuotedPrintable` | mime/src/MimeDecoder.cpp:164-200 | the loop computes the decoding of escapes and soft line breaks |
| `MimeDecoder.QuotedPrintable` | mime/src/MimeDecoder.cpp:164-200 | decoding never lengthens |
| `MimeDecoder.QuotedPrintableReads` | mime/src/MimeDecoder.cpp:164-200 | however a text is quoted, with literals, escapes of either case and soft line breaks, decoding gives the text of section 6.7 of RFC 2045 |
| `MimeDecoder.QReads` | mime/src/MimeDecoder.cpp:48-81 | the same for the Q encoding of section 4.2 of RFC 2047 |
| `MimeDecoder.EveryByteEscapes` | mime/src/MimeDecoder.cpp:18-33 | two hexadecimal digits give every byte |
| `MimeDecoder.HasQpArtifactsImpl` | mime/src/MimeDecoder.cpp:35-46 | true exactly when an escape stands somewhere |
| `MimeDecoder.DecodeEncodedWordImpl` | mime/src/MimeDecoder.cpp:86-162 | the loop decodes words, drops blank gaps between them, keeps broken ones |
| `MimeDecoder.ChunksOfUtf8` | mime/src/MimeEncoder.cpp:34-45 | valid UTF-8 is always cut completely, into whole characters of at most the chunk size |
| `MimeDecoder.HeaderRoundTrip` | mime/src/MimeDecoder.cpp:86-162 | every valid UTF-8 text that needs encoding comes back, for chunk sizes 4 to 57 and every blank separator |
| `MimeDecoder.HeaderRoundTripIff` | mime/src/MimeDecoder.cpp:86-162 | every text of bytes that EncodeHeader encodes comes back if and only if none of its chunks has more than 57 bytes |
| `MimeDecoder.WordLength` | mime/src/MimeEncoder.cpp:38-43 | words of 45 bytes take at most 72, below the 75 of section 2 of RFC 2047 |
| `MimeDecoder.SmallChunkSticks` | mime/src/MimeEncoder.cpp:34-45 | below four bytes it does so on a text of valid UTF-8 |
| `MimeDecoder.ChunkSizeExact` | mime/src/MimeEncoder.cpp:34-45 | the chunk sizes that serve all valid UTF-8 are exactly those from four |
| `MimeDecoder.ReadableSizesExact` | mime/src/MimeEncoder.cpp:25-47 | the chunk sizes with which all valid UTF-8 that needs encoding also comes back are exactly 4 to 57 |
| `MimeDecoder.PlainHeader` | mime/src/MimeDecoder.cpp:94-161 | text without `=?` and without escapes is read as it is |
| `MimeHeaders.GetHeaderValue` | mime/src/MimeParser.cpp:446-484 | the first header of the name, any case, unfolded |
| `MimeHeaders.SplitAddresses` | mime/src/MimeParser.cpp:207-249 | cuts at commas outside quotes and angle brackets |
| `Multipart.NextPart` | mime/src/MimeParser.cpp:257-274 | one round of the loop takes the next part, or stops at the closing delimiter or the last one |
| `Multipart.PartsFit` | mime/src/MimeParser.cpp:251-275 | the parts together are shorter than the body |
| `Multipart.PartsShorter` | mime/src/MimeParser.cpp:251-275 | every part is strictly shorter than the body, so parsing terminates |
| `MimeParser.ParseMainHeaders` | mime/src/MimeParser.cpp:190-205 | decoded sender and subject, split address lists, plain threading headers |
| `MimeParser.ParseMultipartBody` | mime/src/MimeParser.cpp:251-275 | terminates on every input and handles exactly the body's parts, in order |
| `MimeParser.ProcessMimePart` | mime/src/MimeParser.cpp:277-387 | terminates on every input; nested multiparts, attachments, plain text and HTML, quoted-printable and Base64 |
| `MimeParser.ProcessBodyIsAll` | mime/src/MimeParser.cpp:251-275 | the loop is the fold of part handling over the list of parts |
| `MimeParser.ParseEmail` | mime/src/MimeParser.cpp:33-107 | the flag and the Email for every raw message, empty and boundary-less ones included |
| `MimeStructure.ParsePartStructure` | mime/src/MimeParser.cpp:499-573 | terminates on every input and builds the structure tree |
| `MimeStructure.ChildrenAreStructures` | mime/src/MimeParser.cpp:535-559 | the children of a node are the structures of its parts, in order |
| `MimeStructure.LeavesFit` | mime/src/MimeParser.cpp:499-573 | the sizes of all leaves sum to at most the length of the raw message |
| `ImapSection.ExtractPartBySection` | imap-server/src/ImapUtils.cpp:506-553 | for every number the text between two delimiters less one line break, or nothing |
| `ImapSection.SectionIsChild` | imap-server/src/ImapUtils.cpp:506-553 | section k is the text from which the parser builds its k-th child |
| `ImapSection.PartsBeginSlices` | imap-server/src/ImapUtils.cpp:512-551 | the parser's parts are the first sections, and a body that holds the delimiter has at least one section more |
| `MimeBuilder.JoinAddresses` | mime/src/MimeBuilder.cpp:17-26 | the addresses joined by comma and blank |
| `MimeBuilder.ValidateEmail` | mime/src/MimeBuilder.cpp:59-90 | accepts exactly the messages with a sender, recipients with an at sign and a body |
| `MimeBuilder.AppendMainHeaders` | mime/src/MimeBuilder.cpp:92-115 | appends the block of main header fields; never returns exactly where the subject cannot be cut |
| `MimeBuilder.AppendTextPart` | mime/src/MimeBuilder.cpp:151-159 | appends the delimiter and the wrapped text part |
| `MimeBuilder.AppendHtmlPart` | mime/src/MimeBuilder.cpp:161-169 | appends the delimiter and the Base64 part, or throws above the size limit |
| `MimeBuilder.AppendAttachments` | mime/src/MimeBuilder.cpp:171-186 | appends every attachment behind its delimiter, in order; never returns exactly where some name cannot be cut |
| `MimeBuilder.AppendBodyContent` | mime/src/MimeBuilder.cpp:117-149 | appends the first part, or the content headers and the body; throws exactly above the size limit |
| `MimeBuilder.BuildEmail` | mime/src/MimeBuilder.cpp:30-57 | refuses exactly the invalid messages; throws exactly for HTML above the size limit behind a subject that can be cut; never returns exactly where the subject, or a name behind legal HTML, cannot be cut; else the whole message |
| `HeaderBlock.BlockRoundTrip` | mime/src/MimeParser.cpp:109-131 | a printed block of fields, folded or not, splits into its headers and its body, and every header is found unfolded |
| `MimeRoundTrip.PartsOfBody` | mime/src/MimeParser.cpp:251-275 | a multipart body falls into exactly the parts it was made of |
| `MimeRoundTrip.TextPartProcessed` | mime/src/MimeParser.cpp:326-357 | a printed text part gives back the wrapped text and a line end |
| `MimeRoundTrip.HtmlPartProcessed` | mime/src/MimeParser.cpp:358-386 | a printed HTML part gives back the HTML |
| `MimeRoundTrip.AttachmentProcessed` | mime/src/MimeParser.cpp:305-325 | a printed attachment gives back its name, encoded or plain, its bare type and its data on one line |
| `MimeRoundTrip.ReadBack` | mime/src/MimeDecoder.cpp:86-162 | a header text that is valid UTF-8 or plain comes back from its folded pieces |
| `MimeMessage.AddressesBack` | mime/src/MimeParser.cpp:207-249 | addresses whose quotes and angles close, with no comma outside them, come back from their joined list |
| `MimeMessage.AlternativePartProcessed` | mime/src/MimeParser.cpp:290-303 | a nested alternative gives back text and HTML, and its boundary is noted |
| `MimeMessage.BuildParseRoundTrip` | mime/src/MimeBuilder.cpp:30-186 | build then parse recovers sender, subject, date, To, Cc, threading headers and HTML exactly, the text wrapped and with a line end, and every attachment's name and stripped data in order |
| `MimeMessage.SampleRecoverable` | mime/src/MimeBuilder.cpp:225-237 | the hypotheses of the round trip can be met, by a message with text, HTML and an attachment |
| `LineEnds.PartsNoCr` | mime/src/MimeParser.cpp:251-275 | for every body and delimiter: without its CRs a body falls into the same parts without theirs |
| `LineEnds.HeaderNoCr` | mime/src/MimeParser.cpp:446-484 | for every header block: each header has the same value when lines end in LF alone |
| `BareMessage.BlockNoCr` | mime/src/MimeParser.cpp:109-131 | a printed block is split at the same place when lines end in LF alone |
| `BareMessage.BareParse` | mime/src/MimeParser.cpp:33-107 | a built message with LF for CRLF is parsed to the same Email, but for the CRs of the plain text |
| `BareMessage.BuiltBreaks` | mime/src/MimeBuilder.cpp:30-186 | the builder writes CR only in line breaks, if the plain text and the attachments' data have it only there |
| `MailJourney.SavedMessage` | server/SmtpSession.cpp:243-280 | of a built message with short lines, none begun by a dot, within the limit, the text with LF for CRLF is saved, with one reply |
| `MailJourney.MailArrives` | mua/core/MailWorker.cpp:1386-1412 | built, sent, saved, fetched and parsed, such a message arrives: all headers, the HTML and the attachments as in the round trip, the plain text without CRs |
| `MailJourney.NoteArrives` | mua/core/MailWorker.cpp:1386-1412 | the hypotheses of that can be met |
| `MailJourney.StoredNotFetched` | server/SmtpSession.cpp:268-277 | a text of 10 MiB is saved, and no client can fetch it |
| `MailJourney.WrappedButRefused` | mime/src/MimeBuilder.cpp:151-159 | a word of 513 to 998 bytes is left whole by the builder, and the message is not saved as it was sent |
| `ImapParser.ElementParser.ParseQuoted` | imap-server/src/ImapParser.cpp:57-85 | the cursor method reads a quoted string, escapes undone |
| `ImapParser.ElementParser.ParseList` | imap-server/src/ImapParser.cpp:87-139 | reads a list with nested lists, brackets and quoted strings |
| `ImapParser.ElementParser.ParseLiteral` | imap-server/src/ImapParser.cpp:195-211 | reads a literal's announcement |
| `ImapParser.ElementParser.ParseAtom` | imap-server/src/ImapParser.cpp:213-224 | reads up to a delimiter character |
| `ImapParser.ElementParser.ParseArgs` | imap-server/src/ImapParser.cpp:15-37 | all arguments of every text, or no return exactly where a closing parenthesis is stray |
| `ImapParser.ElementVerbatim` | imap-server/src/ImapParser.cpp:45-55 | without quotes an element is a prefix of the text and the cursor stands right behind it |
| `ImapParser.AtomVerbatim` | imap-server/src/ImapParser.cpp:213-224 | an atom is the longest prefix without a delimiter character |
| `ImapParser.StuckIff` | imap-server/src/ImapParser.cpp:45-55 | an element takes nothing exactly at a stray closing parenthesis |
| `ImapParser.ArgumentsStuckIff` | imap-server/src/ImapParser.cpp:15-37 | for every text: the loop never ends if and only if a scan that passes over quoted strings, lists and literal announcements meets a closing parenthesis |
| `ImapParser.QuoteImapImpl` | mua/core/MailWorker.cpp:44-59 | the loop quotes and escapes |
| `ImapParser.QuotedReadsEscaped` | imap-server/src/ImapParser.cpp:57-85 | every quoted string is read back, whatever follows |
| `ImapParser.LoginRoundTrip` | imap-server/src/ImapParser.cpp:226-307 | the client's LOGIN line parses to its tag, Login and exactly the two strings |
| `ImapSequence.ParseSequenceSet` | imap-server/src/ImapUtils.cpp:141-186 | the strictly ascending list of exactly the denoted numbers; throws exactly on malformed parts; ranges up to INT64_MAX, whose loop overflows, are excluded |
| `ImapSequence.SelectMessages` | imap-server/src/ImapCommandDispatcher.cpp:383-393 | selects by the number converted to `int` |
| `ImapSequence.FetchReplies` | imap-server/src/ImapCommandDispatcher.cpp:380-436 | a set of numbers from 1 to INT32_MAX is answered with exactly the messages it names and the mailbox has, each under its own position |
| `ImapSequence.LabelsTrueIff` | imap-server/src/ImapCommandDispatcher.cpp:433-436 | for every set: the labels are right if and only if no number selects anything, or none is below 1 and none beyond the mailbox is converted back into it |
| `ImapSequence.ZeroShiftsLabels` | imap-server/src/ImapCommandDispatcher.cpp:386-393 | `0,1` labels the first message 0 |
| `ImapSequence.WideNumberSelects` | imap-server/src/ImapCommandDispatcher.cpp:386-393 | a number of 33 bits selects the first message, under a number that the mailbox does not have |
| `ImapFetch.SplitFrame` | mua/core/MailWorker.cpp:716-731 | the loop splits a frame into lines without their ends |
| `ImapFetch.ReadReply` | mua/core/MailWorker.cpp:733-751 | the untagged lines up to the tagged one, and its verdict |
| `ImapFetch.ExtractRfc822Payload` | mua/core/MailWorker.cpp:481-553 | finds the literal's size, joins lines until it is reached, and cuts |
| `ImapFetch.FetchRoundTrip` | imap-server/src/ImapCommandDispatcher.cpp:453-483 | for every body: the reply to a single-message FETCH, once received, ends well and gives the body back if and only if that has no CR in front of an LF and no line that begins with the tag and OK, NO or BAD |
| `ImapFetch.FetchDelivers` | imap-server/src/ImapSession.cpp:250-275 | for every body, sent and received over a secure session: the client has the body if and only if besides that the reply has at most 10 MiB less 28 bytes |
| `ImapFetch.NoCrIsClean` | mua/core/MailWorker.cpp:724-727 | a body without CR meets that condition |
| `ImapFetch.DecimalRoundTrip` | mua/core/MailWorker.cpp:497-507 | the printed size is read back |
| `ImapExpunge.HandleExpunge` | imap-server/src/ImapCommandDispatcher.cpp:989-1017 | announces exactly the marked messages whose delete succeeds, by descending number |
| `ImapExpunge.ClientInStep` | imap-server/src/ImapCommandDispatcher.cpp:989-1017 | a client that applies the replies in order keeps exactly the snapshot less what was removed |
| `SmtpSession.SmtpConnection.ProcessLine` | server/SmtpSession.cpp:241-319 | one line takes the session and its history to what the specification says, and keeps the invariant |
| `SmtpSession.SmtpConnection.BecomeSecure` | server/server_main.cpp:102-111 | after a handshake the session is secure and back before HELO |
| `SmtpSession.AuthKeeps` | server/SmtpSession.cpp:403-463 | AUTH keeps the invariant: no authentication without TLS and a grant |
| `SmtpSession.AuthLineKeeps` | server/SmtpSession.cpp:465-528 | so do the continuation lines of AUTH |
| `SmtpSession.DataLineKeeps` | server/SmtpSession.cpp:251-280 | so do message lines: body within 10 MiB, saved envelope as given |
| `SmtpSession.CommandKeeps` | server/SmtpSession.cpp:321-401 | so do all commands |
| `SmtpSession.ServerSafety` | server/server_main.cpp:89-115 | in every run: authenticated implies TLS and a grant since the last reset; the envelope is that of the last accepted MAIL; outside a transaction it is empty |
| `SmtpSession.SavedAsSent` | server/SmtpSession.cpp:253-266 | everything saved has exactly the sender and recipients since the last accepted MAIL and the lines since the last accepted DATA |
| `SmtpSession.AuthorizedMeans` | server/SmtpSession.cpp:233-239 | that grant has no HELO, EHLO or handshake behind it |
| `SmtpTransfer.PathsRead` | server/SmtpParser.cpp:58-67 | the paths that the client puts between angle brackets are read as they are |
| `SmtpTransfer.AuthPlainAsks` | mua/core/MailWorker.cpp:408-430 | the client's AUTH PLAIN makes the server ask for exactly the client's user, up to an at sign, and password |
| `SmtpTransfer.SendPayload` | mua/core/MailWorker.cpp:1386-1412 | the loop sends every line without its end, dots stuffed, and then the final dot |
| `SmtpTransfer.LineSurvivesChannel` | proto/SecureChannel.cpp:172-173 | the channel takes exactly the line end off |
| `SmtpTransfer.TransferEndsAtDot` | server/SmtpSession.cpp:251-280 | the server takes every line of at most 512 bytes, refuses each other one, and ends exactly at the final dot |
| `SmtpTransfer.PayloadIsSaved` | server/SmtpSession.cpp:243-280 | of every payload within the size limit the stuffed lines of at most 512 bytes are saved, each with LF |
| `SmtpTransfer.OneReplyIff` | server/SmtpSession.cpp:243-280 | for every payload: there is one reply, and the text is saved under its envelope, if and only if every stuffed line has at most 512 bytes and all together at most 10 MiB |
| `SmtpTransfer.OversizeTransfer` | server/SmtpSession.cpp:268-280 | for every text over the limit: the first line that exceeds it is answered with TooLarge, and the lines behind it go to the session as commands |
| `SmtpTransfer.QuitInText` | server/SmtpSession.cpp:268-307 | a line QUIT behind that one ends the session |
| `SmtpTransfer.SavedUnchangedIff` | server/SmtpSession.cpp:268 | the saved text is the payload's own lines if and only if none begins with a dot |
| `SmtpTransfer.LongLineIsDropped` | server/SmtpSession.cpp:243-246 | a longer line is answered at once and not saved |
| `SecureChannel.SecureEnd.Send` | proto/SecureChannel.cpp:87-128 | sends in clear or seals under the counter, which moves only when both writes succeed; a failure closes |
| `SecureChannel.SecureEnd.Receive` | proto/SecureChannel.cpp:130-177 | checks length, key and counter, advances on success, drops the line end |
| `SecureChannel.SecureEnd.Decrypt` | proto/SecureChannel.cpp:44-79 | opens exactly the packet sealed with its key and counter |
| `SecureChannel.SecureEnd.StartTlsAsClient` | proto/ClientSecureChannel.cpp:26-67 | sends, receives, derives; becomes secure exactly when all three succeed on an open channel in clear, and a failed transfer closes it |
| `SecureChannel.SecureEnd.StartTlsAsServer` | proto/ServerSecureChannel.cpp:26-67 | receives, derives, sends; the same, with the keys in place before the send |
| `SecureChannel.Handshake` | proto/ServerSecureChannel.cpp:3-24 | two new channels whose exchange completes hold crossed keys and counters at zero, where every run starts |
| `SecureChannel.AcceptsExactlyNext` | proto/SecureChannel.cpp:130-170 | of everything a network can deliver, exactly the packet sent next is accepted, if its size allows |
| `SecureChannel.AcceptedIsPrefixOfSent` | proto/SecureChannel.cpp:87-177 | over every run and network, what an end accepts is a prefix of what its peer sent, in order |
| `SecureChannel.OversizeBlocks` | proto/SecureChannel.cpp:147-151 | a frame over the limit is never accepted, nor anything after it |
| `SecureChannel.FrameLimit` | proto/SecureChannel.cpp:89-93 | of the sizes that Send takes, exactly those up to 10 MiB less 28 pass the frame limit |
| `SecureChannel.InOrderDelivery` | proto/SecureChannel.cpp:130-177 | in every good state, delivering the outstanding packets once and in order is a run after which an open end has accepted all that its peer sealed, if all sizes are legal |
| `SecureChannel.NextDelivered` | proto/SecureChannel.cpp:130-177 | one step of it: the next packet is accepted and nothing else changes |
| `SecureChannel.WrappedCounterReplays` | proto/SecureChannel.cpp:76 | after 2^64 messages the first packet would be accepted again |
| `UidStore.MessageRepository.AssignUid` | database/Repository/MessageRepository.cpp:22-47 | inserts with the present `next_uid` and increments it, or leaves all tables as they were |
| `UidStore.MessageRepository.MoveToFolder` | database/Repository/MessageRepository.cpp:165-185 | moves with the UID read before, or leaves all tables as they were |
| `UidStore.MessageRepository.CopyTo` | database/Repository/MessageRepository.cpp:241-279 | inserts the copy and its recipients with the UID read before, or leaves all tables as they were |
| `UidStore.MessageRepository.Expunge` | database/Repository/MessageRepository.cpp:187-206 | deletes the listed messages and their recipients, or nothing |
| `UidStore.NextKeepsInv` | database/Repository/MessageRepository.cpp:22-335 | every step of every client, but for a rename that writes a changed `next_uid` back, keeps: UIDs unique and below `next_uid`, stale reads at most `next_uid` |
| `UidStore.StoreSafety` | database/scheme/001_init_scheme.sql:51 | over every interleaving stored UIDs are unique in their folder and no recipient outlives its message; without stale renames all UIDs stored or handed out lie below `next_uid` |
| `UidStore.NextKeepsLinked` | database/scheme/001_init_scheme.sql:57-63 | every step leaves each recipient with a stored message; whatever deletes a message deletes its recipients |
| `UidStore.CopyOutcome` | database/Repository/MessageRepository.cpp:217-280 | a copy loses exactly when its folder is gone or its UID is taken, and then changes nothing; a winner adds one row and its recipients |
| `UidStore.MoveOutcome` | database/Repository/MessageRepository.cpp:165-185 | the same for a move |
| `UidStore.FreshUids` | database/Repository/MessageRepository.cpp:29-41 | over every run without a stale winner and a stale rename every folder hands out strictly increasing UIDs |
| `UidStore.FreshIff` | database/Repository/MessageRepository.cpp:165-326 | over every run that skips no UID: UIDs are strictly increasing and always below `next_uid` if and only if no copy or move won, and no rename wrote, with a `next_uid` that had changed since it was read |
| `UidStore.FreshIffNoStaleWin` | database/Repository/MessageRepository.cpp:165-280 | where no rename is stale: strictly increasing if and only if no stale copy or move won |
| `UidStore.FreshFromEmpty` | database/Repository/MessageRepository.cpp:165-326 | `FreshIff` from the empty store |
| `UidStore.FreshExact` | database/Repository/MessageRepository.cpp:22-326 | over every run: the same if and only if no rename writes back a value at or below a UID handed out, and no copy or move wins with such a UID or with one above `next_uid` |
| `UidStore.BoundedIff` | database/Repository/MessageRepository.cpp:22-326 | over every run: stored UIDs are below `next_uid` in all states if and only if no rename writes back a value at or below a stored UID and no copy or move wins with a UID above `next_uid` |
| `UidStore.SkippedUidMayBeTaken` | database/Repository/MessageRepository.cpp:226-253 | a stale winner may do no harm where its UID had been skipped |
| `UidStore.FreshWithoutReads` | database/Repository/MessageRepository.cpp:22-47 | runs without copy, move and rename are all strictly increasing |
| `UidStore.StaleCopyReusesUid` | database/Repository/MessageRepository.cpp:226-253 | an overtaken copy hands out a UID a second time |
| `UidStore.RenameExact` | database/Repository/MessageRepository.cpp:309-326 | a rename leaves all UIDs below `next_uid` if and only if those of its folder are below the value it read |
| `UidStore.StaleRenameBlocks` | database/Repository/MessageRepository.cpp:309-326 | a message that arrives between the read and the write of a rename leaves the folder refusing every delivery until a step takes one of its messages or the folder away or moves its `next_uid` |
| `UidStore.BlockedStays` | database/Repository/MessageRepository.cpp:22-47 | a folder whose `next_uid` is taken stays so, and hands out no UID, until such a step |
| `Logger.AsyncLogger.Append` | logger/src/Logger.cpp:126-134 | queues a message unless its level is NONE or the logger has stopped |
| `Logger.AsyncLogger.BeginWait` | logger/src/Logger.cpp:136-143 | raises the flush flag |
| `Logger.AsyncLogger.EndWait` | logger/src/Logger.cpp:143-147 | on a running logger everything logged before has been handled |
| `Logger.AsyncLogger.Take` | logger/src/Logger.cpp:53-74 | confirms an empty flush, leaves, goes round, or takes the whole queue |
| `Logger.AsyncLogger.Resume` | logger/src/Logger.cpp:65-73 | the same behind the second wait |
| `Logger.AsyncLogger.FetchStrategy` | logger/src/Logger.cpp:78-87 | adopts the strategy, or begins to report its failure |
| `Logger.AsyncLogger.ReportFailure` | logger/src/Logger.cpp:86-110 | the two reports around the switch to the console, the running flag read before the queue is locked |
| `Logger.AsyncLogger.DrainOne` | logger/src/Logger.cpp:92-113 | filters, writes or keeps the front message |
| `Logger.AsyncLogger.ConfirmFlush` | logger/src/Logger.cpp:116-121 | confirms a flush behind a batch |
| `Logger.NextKeepsInv` | logger/src/Logger.cpp:48-147 | every step of every thread keeps the order of the log and the barrier |
| `Logger.LogIsConserved` | logger/src/Logger.cpp:48-147 | handled ++ local ++ shared is the log in every reachable state, and what was written is what the levels let through |
| `Logger.FlushIsBarrier` | logger/src/Logger.cpp:136-147 | when WaitFlush returns on a running logger, everything logged before it took the lock has been written or filtered |
| `Logger.StopsWhenDone` | logger/src/Logger.cpp:68-71 | the worker leaves only when everything queued so far has been handled |
| `Logger.TwoReadersBreakBarrier` | logger/src/Logger.cpp:136-147 | a second reader at the same time may return too early |

## Left out

- Sockets, timers, threads and the HTTP interface: a send or receive may fail and then the connection is closed; nothing else of them matters here.
- Ciphers, key exchange and password hashing: the cipher and the key agreement are ideal, `authorize` is a parameter. An attacker who takes part in the unauthenticated key exchange itself is outside the model.
- SQL and row mapping: tables are maps with the unique index, the foreign keys on folders and messages, and roll-back; users and their deletion, and the names that a rename refuses, are not part of the model.
- The delivery loop inside `SaveMessage` (one mailbox per recipient, automatic users): the model records the envelope and the text that are saved, and takes the outcome as a parameter.
- SmtpSession.SmtpConnection.ProcessLine: AUTH and its continuation lines are decided on values and then stored, not statement by statement.
- ENVELOPE, BODYSTRUCTURE and FETCH items other than RFC822; SEARCH, STORE and mailbox commands of the IMAP server.
- ImapSequence.LabelsTrueIff: a mailbox of more than INT32_MAX messages, whose size is itself converted to `int`; `SelectMessages` covers it.
- UidStore.FreshIff: stated for runs in which no step moves `next_uid` without handing out a UID; `SkippedUidMayBeTaken` shows why, and `FreshExact` covers all runs.
- Base64StreamDecode.Base64StreamDecoder.DecodeStream: a character behind a full buffer, which the program would write outside it.
- `SmtpClient::AttachmentHandler::ParseMIME` and the writing of files, `MimeComposer` (replies, forwards) and the tools around the libraries: easy members.
- Liveness of the logger, and several readers at once beyond the counterexample.
