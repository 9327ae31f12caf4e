# A mail server, modelled and proved

This project models a small SMTP/LMTP server written in C++ and C, and proves properties of the model.
The server reads bytes from the network, cuts them into lines, runs the mail protocol over them, and
queues what it accepted; the queue delivers to the mail servers of each recipient's domain and tries
again later when some of them fail. Around this core sit an MD5 and a Base64 implementation for AUTH
LOGIN, a dictionary with an INI reader and writer for the user table, a DNS name codec, a mail header
parser, message ids, and a greylist that decides which connections are accepted.

`dafny verify dfyconfig.toml` checks everything.

## How the model is built

Code that changes things step by step is a class or a method over arrays, and each method is proved
against a function that says what it computes. The properties are then lemmas about these functions,
over every input, every run and every way the network may cut the bytes.

| files | source |
|---|---|
| `CStrings`, `Bytes`, `Buffer` | `server/buffer.cpp`, C strings, the search for the `@`, machine numbers |
| `Smtp`, `SmtpVerbs`, `SmtpProofs`, `SmtpReplies`, `SmtpCodes`, `SmtpMail`, `SmtpTransaction`, `SmtpSession` | `server/smtpsrvs.cpp`, `server/smtpsrvs.h` |
| `Login`, `Stamp` | the session together with the codecs, the digest and the header parser |
| `Md5Spec`, `Md5Bits`, `Md5Facts`, `Md5Vector`, `Md5` | `md5/md5.cpp`; the specification is RFC 1321 |
| `Delivery`, `QueueSpec`, `QueueLedger`, `MailQueue` | `server/mailqueue.cpp` |
| `Promise` | the session together with the queue |
| `Dictionary` | `iniparser/dictionary.c` |
| `IniSpec`, `IniRoundTrip`, `IniExact`, `IniFacts`, `IniDump`, `IniDumpExact`, `IniParser` | `iniparser/iniparser.c` |
| `Base64`, `Base64Codec`, `MessageId` | `base64/decoder.cpp`, the message ids of `server/mailqueue.cpp` |
| `DnsName` | `server/resolve.cpp` |
| `Header`, `HeaderFields`, `HeaderLines`, `HeaderExact`, `HeaderParser` | `server/header.cpp` |
| `AddressList`, `Greylist` | `server/ipaddrlist.cpp`, the connection decision of `server/main.cpp` |

The network, the DNS, the clock, the random generator and the user table are parameters: the outcome of
contacting a domain is an arbitrary boolean for each attempt, times and random digits are arguments, and
the user table is a map from addresses to password hashes. A `char` is a byte; MD5 words and Base64
bytes are integers with their range, and the wrap-around of 32 bits is written out.

## Where the code does not do what it is for

The code is modelled as it is. Seven of its promises hold only under a condition, and the exact condition
is proved, with an input that fails.

- RCPT should refuse addresses in the local domain that no user has. The domain is compared on the raw
  parameter, so whatever stands behind the address, the closing bracket included, makes it another
  domain: after any blanks and an optional `<`, an unknown local address is refused if and only if
  nothing stands behind it (`SmtpTransaction.UnknownLocalExactly`; `SmtpMail.UnknownLocalAccepted` gives
  `<u@d>`).
- Every recipient of a mail the client is told is taken should be delivered to, wait, or be given up by
  expiry. A recipient here whose mailbox does not take the mail is dropped all the same, so nobody is
  lost if and only if every mailbox here that mail was taken for takes it (`QueueLedger.NobodyLost`,
  `Promise.PromiseKept`; `Promise.PromiseBroken` takes a mail to any bracketed local address that nobody
  has from the client's bytes to its loss). Outside LMTP each 250 at the end of the data stands for a
  mail the queue has taken; under LMTP nothing is handed over (`Promise.OkMeansTaken`).
- A pass over the queue that meets an expired message deletes it and then sends the emptied slot. A pass
  completes if and only if it meets no expired message or the clock is not past the sending delay
  (`QueueSpec.HandleCompletes`; `QueueSpec.ExpiredCrashes` gives a queue of one message).
- A dumped INI entry comes back if and only if its line fits the reader's buffer and its value is one
  line, does not end in a backslash, has no blanks at its ends and no comment sign, is not an empty pair
  of quotes and does not start with a quote followed by a character other than that quote
  (`IniExact.EntryLoadsExactly`). A whole dictionary comes back if and only if all its entries do and
  its sections have no value (`IniDumpExact.DumpLoadsExactly`). `IniExact.BackslashLost` gives `a\`.
- The fields of a mail's header are read, and queued, as the sender wrote them if and only if no name is
  repeated, there are at most 64 fields (when queued, counting those the server adds), one blank stands
  behind every colon, every line that continues a field starts with a tab, no field's own line ends in a
  CR, and names and values fit the arrays (`HeaderExact.KeptExactly`, `Stamp.StampKeepsExactly`).
  Without the blank the value loses its first character (`HeaderExact.SubjectCut` gives
  `Subject:hello`). Of a repeated name the last value is left, in the place of the first
  (`HeaderExact.ReceivedLost`). A continuation that starts with a blank is dropped when it has no colon
  (`HeaderExact.BlankFoldLost`) and becomes a field of its own when it has one
  (`HeaderExact.BlankFoldIsField`; `HeaderExact.BlankFoldWithColon` gives ` at 10:20`).
- A mail body read and written back is the same if and only if every line ends in a bare LF and it holds
  no NUL (`Header.BodySurvives`; `Header.CrLost` gives a line that ends in CR LF).
- When the pointers that reading a DNS name follows go back from where they stand, reading ends if and
  only if each of them goes before the start of the run of bytes it stands in (`DnsName.EndsExactly`). A
  pointer back into its own run is followed for ever (`DnsName.IntoRunNeverEnds`;
  `DnsName.LoopNeverEnds` gives four bytes). On any message reading ends, if at all, in fewer rounds
  than the message has bytes (`DnsName.EndsSoon`).

## Model

| member | source | states |
|---|---|---|
| SmtpProofs.InvStep | server/smtpsrvs.cpp:123-193 | every line keeps the session invariant: past the greeting the protocols are LMTP alone or exclude it and the remote name is set; a transaction has a sender, an address with one `@` each and fewer recipients than the limit; data needs a recipient; the message buffer is empty outside data; a login in progress is not yet logged in; the closed state is never entered |
| SmtpProofs.InvRun | server/smtpsrvs.cpp:123-143 | the invariant holds after any sequence of lines |
| SmtpProofs.InitialInv | server/smtpsrvs.cpp:56-100 | a fresh session satisfies the invariant, whatever its uninitialised fields hold |
| SmtpProofs.StripKeepsAt | server/smtpsrvs.cpp:556-582 | stripping blanks and brackets from an address with one `@` leaves an address with one `@` |
| SmtpProofs.StripDomain | server/smtpsrvs.cpp:584-619 | the domain of the raw parameter is the stripped address's domain, followed by `>` when the parameter ends in it |
| SmtpProofs.RepliesStep | server/smtpsrvs.cpp:156-268 | each command or login line gets one reply, a content line none, the end of the data one, or one for each recipient under LMTP; the 421 and the 521 are never sent; only QUIT starts closing |
| SmtpProofs.RepliesRun | server/smtpsrvs.cpp:123-143 | over any run the number of replies is the sum of what the lines are owed, and none is the 421 or the 521 |
| SmtpReplies.RepliesOnWire | server/smtpsrvs.cpp:123-143 | over any run the bytes sent are lines that make up exactly the greeting and the replies owed, each complete with its final line (section 4.2.1 of RFC 5321) |
| SmtpReplies.ReplyLines | server/smtpsrvs.cpp:272-313 | the text of every reply is its continuation lines and one final line, each ended by CRLF, and is one reply to a reader of final lines |
| SmtpReplies.OfferTells | server/smtpsrvs.cpp:80-99 | the greeting names LMTP last exactly when it is offered, and ESMTP first exactly when that is, or SMTP and LMTP both are |
| SmtpVerbs.CommandsSpelled | server/smtpsrvs.cpp:195-268 | a line is each of the ten commands exactly when it starts with its four letters, capital or small, and then ends or goes on with a blank |
| SmtpVerbs.UnimplementedSpelled | server/smtpsrvs.cpp:195-268 | the same for the eight commands that are known and not carried out |
| SmtpCodes.AllLinesAgree | server/smtpsrvs.cpp:272-313 | every line of a reply starts with the same code |
| SmtpCodes.FirstDigit | server/smtpsrvs.cpp:123-268 | on the bytes sent, for every line but content and LMTP's end of data: the first digit is 2 or 3 exactly when what was asked for has been done (a sender or recipient stored, a mail taken, a login, a move to other input, an offered greeting, RSET, NOOP, QUIT), 3 exactly when the session goes on to read data or credentials, and the code is 235 exactly when the session becomes authenticated |
| SmtpCodes.HelloCodes | server/smtpsrvs.cpp:272-313 | a greeting is answered 250 exactly when its protocol is offered, else 501 and nothing changes; the first one settles the protocols |
| SmtpCodes.MailCodes | server/smtpsrvs.cpp:315-356 | MAIL is answered 250 exactly when a sender is stored, and 501, 503 and 551 exactly for a missing FROM:, a wrong moment and an address without exactly one at sign, with nothing changed |
| SmtpCodes.RcptCodes | server/smtpsrvs.cpp:358-414 | RCPT is answered 250 exactly when a recipient is stored, 450 exactly for an unknown address whose raw domain is the server's, and 501, 503, 552 and 553 exactly for a missing TO:, a wrong moment, a full list and a bad address, with nothing changed |
| SmtpCodes.DataAndRsetCodes | server/smtpsrvs.cpp:416-437 | DATA is answered 354 exactly when there is a recipient and the session reads data, else 503; RSET drops sender, recipients and content |
| SmtpCodes.OtherCodes | server/smtpsrvs.cpp:236-268 | NOOP 250, QUIT 221 and closing, 502 and 500 for the commands not carried out and not known, and nothing else changes |
| SmtpCodes.AuthCodes | server/smtpsrvs.cpp:453-478 | AUTH is answered 334 exactly when the session reads a user name, 503 at a wrong moment, 504 for another mechanism |
| SmtpCodes.UsernameCodes | server/smtpsrvs.cpp:480-501 | a user name is answered 334 exactly when the session reads a password, 501 exactly for a star, 535 exactly for bad Base64 |
| SmtpCodes.PasswordCodes | server/smtpsrvs.cpp:503-535 | a password is answered 235 exactly when it authenticates, which is exactly when its hash is the named user's; 501 exactly for a star, 535 otherwise |
| SmtpCodes.EndCodes | server/smtpsrvs.cpp:632-769 | outside LMTP the end of data is answered 250 exactly when the mail was handed over and taken, 451 exactly when it was not taken, 552 exactly when it is too big, 550 exactly when it fits and its sender may not send it; the transaction is dropped |
| SmtpCodes.LmtpCodes | server/smtpsrvs.cpp:156-193 | under LMTP the end of data sends exactly one 250 line for each recipient, drops the transaction and hands nothing over |
| SmtpCodes.ContentCodes | server/smtpsrvs.cpp:168-193 | a content line is not answered, loses one leading dot and gains its line end |
| SmtpCodes.CodeIsSent | server/smtpsrvs.cpp:740-769 | the three digits sent are the number of the code |
| SmtpCodes.AllEnhanced | server/smtpsrvs.cpp:272-429 | the enhanced status code in a reply's text is of the class of its code (RFC 2034), for every reply but the greetings and those of a login |
| SmtpCodes.OkLinesSent | server/smtpsrvs.cpp:740-754 | among all lines sent there are as many that say a mail was taken as there were such replies |
| SmtpMail.ContentRun | server/smtpsrvs.cpp:621-630 | while the content fits, the message buffer is exactly all unstuffed lines with their CRLFs; once it does not fit, the buffer stays above the limit; nothing else changes |
| SmtpMail.DataPhaseExact | server/smtpsrvs.cpp:156-193 | over a whole data phase, 552 answers exactly the messages over the limit, 550 exactly those whose sender may not send, and what is handed over is all of the lines |
| SmtpMail.EatSplit | server/smtpsrvs.cpp:28-32 | two reads leave the same session, pending bytes, replies and handed messages as one read of both |
| SmtpMail.ChunksDoNotMatter | server/smtpsrvs.cpp:28-32 | the same for any number of chunks |
| SmtpMail.MessageSurvivesTransport | server/smtpsrvs.cpp:156-193 | a client that stuffs dots gets its very message through any chunking (section 4.5.2 of RFC 5321) |
| SmtpMail.PolicyStep | server/smtpsrvs.cpp:453-535 | a line authenticates the session exactly when it is the password of the named user; login is never lost and its name never changes |
| SmtpMail.PolicyRun | server/smtpsrvs.cpp:632-656 | over any run, a message handed over with a local sender comes from a session that gave that very address's password at an earlier line; any other has a local recipient |
| SmtpMail.LoginExact | server/smtpsrvs.cpp:453-535 | the three lines of AUTH LOGIN authenticate if and only if the stored hash is the hash of the password |
| SmtpMail.UnknownLocalRefused | server/smtpsrvs.cpp:584-619 | when the address left after stripping is local and unknown, the parameter is refused if and only if it does not end in `>` |
| SmtpTransaction.UnknownLocalExactly | server/smtpsrvs.cpp:584-619 | blanks, an optional `<`, an unknown local address and any tail without `@` are refused if and only if the tail is empty, and accepted otherwise |
| SmtpMail.UnknownLocalAccepted | server/smtpsrvs.cpp:584-619 | the parameter `<u@d>` is accepted although nobody is `u@d` |
| SmtpTransaction.EnvelopeTaken | server/smtpsrvs.cpp:315-429 | MAIL, any list of RCPT below the limit and DATA leave exactly the client's sender and recipients, in order, and one positive reply for each |
| SmtpTransaction.MailGoesThrough | server/smtpsrvs.cpp:123-193 | a whole transaction in any chunks concludes with that envelope and that content, and the session is ready for the next |
| Login.LoginOverTheWire | server/smtpsrvs.cpp:480-535 | a login sent in Base64 in any chunks authenticates, as that user, if and only if the table stores the MD5 digest of that password |
| Login.CredentialDecodes | base64/decoder.cpp:47-79 | decoding an encoded credential gives the session the credential as a C string, and the code is never the lone `*` |
| Login.PromptsEncoded | server/smtpsrvs.cpp:453-501 | the two prompts of a login are `Username:` and `Password:` in Base64 |
| Stamp.StampMessage | server/smtpsrvs.cpp:659-688 | the rewritten message is the specified one, or nothing where the header arrays do not hold what is read |
| Stamp.StampedMail | server/smtpsrvs.cpp:659-688 | for any header whose lines fit the arrays and hold something behind every colon, with repeated names and any continuation lines, the queued text is the merged fields, the fields the server owes, an empty line and every line of the body |
| Stamp.StampFieldsAre | server/smtpsrvs.cpp:666-675 | of any table, the fields stamped are the sender's, then Date and Message-ID if and only if missing, then the trace field, cut off where the table of 64 ends |
| Stamp.StampNames | server/smtpsrvs.cpp:666-675 | a stamped header has a Date and a Message-ID, the sender's if there is one, the server's date without its line break, and ends with the trace field |
| Stamp.StampKeepsExactly | server/smtpsrvs.cpp:659-688 | of any mail, all of the sender's fields are queued unchanged, in order and first, with all that the server owes behind them, if and only if the header is intact (no name repeated, one blank behind every colon, every continuation behind a tab, no CR at the end of a field's own line, everything within the arrays) and the sender's fields and those owed are at most 64 |
| Stamp.MailReachesQueue | server/smtpsrvs.cpp:632-688 | from the client's bytes, envelope and all, through any chunking: what is handed over is the mail as sent, the queued text is the one above when the header fits, and the sender's and the server's fields are all in it if and only if the header is intact and leaves room for those owed |
| SmtpSession.Session.constructor | server/smtpsrvs.cpp:56-100 | a new session is an initial state with an empty input buffer and the greeting sent |
| SmtpSession.Session.EatReceivedData | server/smtpsrvs.cpp:28-32 | the object's new state, output, pending input and handed messages are those of the state machine on the received bytes, its invariant is kept, and its input array is the old or a new one |
| SmtpSession.Serve | server/smtpsrvs.cpp:28-32 | a session object given all chunks of a connection one by one ends as the state machine does on all the bytes at once, and every message it handed over comes from an earlier login of its sender or has a local recipient |
| SmtpSession.Session.HandleNewData | server/smtpsrvs.cpp:123-143 | all complete lines are processed in order and the tail stays pending |
| SmtpSession.Session.ProcessData | server/smtpsrvs.cpp:156-193 | a data line moves the object as it moves the state machine |
| SmtpSession.Session.ProcessCommand | server/smtpsrvs.cpp:195-268 | a command read from raw memory has the effect its C string has |
| SmtpSession.StaleBytesDoNotMatter | server/smtpsrvs.cpp:195-268 | bytes past the NUL of a short line never select a command or a parameter |
| SmtpSession.Session.ProcessHello | server/smtpsrvs.cpp:272-313 | refines the step for the three greetings |
| SmtpSession.Session.ProcessMailCommand | server/smtpsrvs.cpp:315-356 | refines the step for MAIL |
| SmtpSession.Session.ProcessRcptCommand | server/smtpsrvs.cpp:358-414 | refines the step for RCPT |
| SmtpSession.Session.ProcessDataCommand | server/smtpsrvs.cpp:416-429 | refines the step for DATA |
| SmtpSession.Session.ProcessRsetCommand | server/smtpsrvs.cpp:431-437 | refines the step for RSET |
| SmtpSession.Session.ProcessAuthCommand | server/smtpsrvs.cpp:453-478 | refines the step for AUTH |
| SmtpSession.Session.FetchUsername | server/smtpsrvs.cpp:480-501 | refines the username line of a login |
| SmtpSession.Session.FetchPassword | server/smtpsrvs.cpp:503-535 | refines the password line of a login |
| SmtpSession.Session.MessageDiscard | server/smtpsrvs.cpp:540-554 | forgets sender, recipients and content |
| SmtpSession.Session.MessageStart | server/smtpsrvs.cpp:556-582 | stores the stripped sender or refuses an address without exactly one `@` |
| SmtpSession.Session.MessageAddRecipient | server/smtpsrvs.cpp:584-619 | stores the stripped recipient behind the others or answers with the code of its refusal |
| SmtpSession.Session.MessageAddLine | server/smtpsrvs.cpp:621-630 | appends a line and CRLF, or reports that the limit is passed |
| SmtpSession.Session.MessageDataEnd | server/smtpsrvs.cpp:632-656 | the code and the handed message of the end of data |
| SmtpSession.Session.MessageDataEndL | server/smtpsrvs.h:129-130 | every recipient is answered 250 |
| SmtpSession.Session.DataEndResponse | server/smtpsrvs.cpp:740-769 | the reply for a code, and the message discarded |
| CStrings.FindAtSymbol | server/smtpsrvs.cpp:783-792 | the position of the only `@`; -1 when there is none or more than one |
| Buffer.LinesSplit | server/buffer.cpp:90-104 | the lines of two pieces are the lines of the first, then those of its tail joined to the second |
| Buffer.LineInMemory | server/buffer.cpp:90-104 | the NULs written over LF and CR leave exactly the cleaned line as the C string |
| Buffer.InoutBuffer.ReadLine | server/buffer.cpp:90-104 | the first line moves to the destination and the rest stays; without an LF nothing changes |
| Buffer.InoutBuffer.AddData | server/buffer.cpp:18-23 | appends the bytes, growing as needed |
| Buffer.InoutBuffer.AddChar | server/buffer.cpp:25-30 | appends one byte, growing as needed |
| Buffer.InoutBuffer.GetData | server/buffer.cpp:32-46 | moves a prefix of the contents out |
| Buffer.InoutBuffer.EraseData | server/buffer.cpp:53-61 | closes the gap after removing bytes at an index |
| Buffer.InoutBuffer.ProvideMaxLen | server/buffer.cpp:184-194 | makes room without changing the contents |
| Md5.Unrolled | md5/md5.cpp:161-245 | the 64 unrolled steps equal the 64 rounds of section 3.4 of RFC 1321 with their index, shift and constant schedules |
| Md5Facts.FBit | md5/md5.cpp:61-63 | bit by bit, F is y's where x has a one, else z's |
| Md5Facts.GBit | md5/md5.cpp:65-67 | bit by bit, G is x's where z has a one, else y's |
| Md5Facts.HBit | md5/md5.cpp:69-71 | bit by bit, H is the parity of the three |
| Md5Facts.IBit | md5/md5.cpp:73-75 | bit by bit, I differs from y's exactly where x has a one or z a zero |
| Md5Facts.RotateBit | md5/md5.cpp:77-80 | bit i of a word comes out n places up, around from the top |
| Md5Bits.RotateWide | md5/md5.cpp:77-80 | in 64 bits, a rotated word is the word times 2^n modulo 2^32 plus what has gone past them |
| Md5Facts.ScheduleCovers | md5/md5.cpp:161-245 | each round of 16 steps uses every word of the block |
| Md5Facts.UnhexHex | md5/md5.cpp:335-347 | reading the hexadecimal digits back, high digit first, gives the bytes |
| Md5Vector.DigestOfMessage | md5/md5.cpp:298-347 | the digest of `abcdefghijklmnopqrstuvwxyz` is the one section A.5 of RFC 1321 gives, by all 64 steps, the padding and the digits |
| Md5.DecodeInto | md5/md5.cpp:137-142 | bytes to words, low byte first |
| Md5.EncodeInto | md5/md5.cpp:148-156 | words to bytes, low byte first |
| Md5Spec.DecodeEncode | md5/md5.cpp:137-156 | decoding undoes encoding |
| Md5Spec.EncodeDecode | md5/md5.cpp:137-156 | encoding undoes decoding |
| Md5.CountsAdd | md5/md5.cpp:251-262 | the carry test and the high part keep the two words equal to the number of bits modulo 2^64 |
| Md5.Hasher.Transform | md5/md5.cpp:161-245 | one block compressed |
| Md5.Hasher.Update | md5/md5.cpp:251-284 | the object stands for the message fed so far: full blocks folded into the state, the tail in the buffer, the bit count in the two words; after finalize the digest stays that of the message before |
| Md5.PaddedIs | md5/md5.cpp:298-330 | the padding and the length bytes fed by finalize are those of sections 3.1 and 3.2 of RFC 1321 |
| Md5Facts.PadExactly | md5/md5.cpp:298-330 | the padding is 1 to 64 bytes and ends at 56 modulo 64 |
| Md5Facts.LengthReads | md5/md5.cpp:298-330 | the eight length bytes spell the number of bits modulo 2^64, low byte first |
| Md5.Hasher.Finalize | md5/md5.cpp:298-330 | the stored digest is the one-shot digest of the whole message, however it was split |
| Md5.Hasher.HexDigest | md5/md5.cpp:335-347 | the digest in hexadecimal, empty before finalize |
| Md5.GetMD5Hash | md5/md5.cpp:351-355 | the hexadecimal MD5 digest of a string |
| Delivery.DomainsDistinct | server/mailqueue.cpp:940-965 | no domain is listed twice |
| Delivery.DomainsCover | server/mailqueue.cpp:940-965 | every recipient's domain is listed and every listed domain has a recipient |
| Delivery.DomainsInOrder | server/mailqueue.cpp:940-965 | the domains are listed in the order in which they first appear |
| Delivery.AttemptConserves | server/mailqueue.cpp:655-796 | one attempt splits the recipients into delivered and pending, as multisets |
| Delivery.AttemptsConserve | server/mailqueue.cpp:655-796 | over any number of attempts with any outcomes, delivered plus pending is the original multiset |
| Delivery.PendingEmpty | server/mailqueue.cpp:655-796 | nobody is pending exactly when every domain was served |
| Delivery.GatherFits | server/mailqueue.cpp:749-763 | the rebuilt list never needs more cells than the old one has |
| QueueSpec.AddInv | server/mailqueue.cpp:461-554 | adding keeps the queue invariant: exact count, free slots with time 0, every message tracked and paced |
| QueueSpec.AddPlaces | server/mailqueue.cpp:461-554 | an accepted message waits as it came, for exactly its far recipients, in order, in a slot that was free; local copies are spooled |
| QueueSpec.OccupiedBound | server/mailqueue.cpp:468-474 | the full-check leaves a free slot exactly when the count is below the size |
| QueueSpec.SendTracks | server/mailqueue.cpp:655-796 | an attempt keeps every recipient either served or waiting, and attempts stay more than the delay apart |
| QueueSpec.HandleInv | server/mailqueue.cpp:800-830 | a pass that completes keeps the queue invariant |
| QueueSpec.HandleCompletes | server/mailqueue.cpp:800-830 | a pass completes if and only if every message is at most its lifetime old by its creation time or the clock is not past the sending delay |
| QueueSpec.SlotExactly | server/mailqueue.cpp:800-830 | one round, by the clock alone: a message older than its lifetime is dropped, and the round fails once the clock is past the delay; one up to its lifetime old is left alone until the delay since its last attempt has passed, and is then sent, freed when nobody is left and otherwise kept, as it was, for those left with the attempt noted |
| QueueSpec.PassExactly | server/mailqueue.cpp:800-830 | a pass that completes does to every slot it covers what one round does to it as it was, and leaves the others alone |
| QueueSpec.ClockSet | server/mailqueue.cpp:800-830 | adding one constant to the clock, the creation time and the last attempt changes neither whether a round fails nor whether the slot is freed nor who is left |
| QueueSpec.RunInv | server/mailqueue.cpp:461-830 | the queue invariant holds in every state of every run of additions and passes |
| QueueSpec.FreedMeansServed | server/mailqueue.cpp:800-830 | a message at most its lifetime old leaves its slot only when every original recipient has been served |
| QueueSpec.ExpiredCrashes | server/mailqueue.cpp:810-822 | one message older than the lifetime makes the next pass use an empty slot |
| QueueLedger.SplitAll | server/mailqueue.cpp:491-520 | every recipient is far, spooled here or lost here, as multisets |
| QueueLedger.TakenExactly | server/mailqueue.cpp:468-474 | the answer to an addition is negative exactly when the queue is full |
| QueueLedger.RunBalance | server/mailqueue.cpp:461-830 | over any run that completes, everybody waiting at its start or accepted since is waiting at its end, delivered, given up by expiry, spooled here or lost here, as multisets, and the mailboxes grew by exactly those spooled |
| QueueLedger.HereOrLost | server/mailqueue.cpp:496-517 | of the recipients here a run accepted, exactly those whose mailbox takes mail are spooled, as often as they were accepted, and exactly the others are lost |
| QueueLedger.NobodyLost | server/mailqueue.cpp:461-830 | from an empty queue, everybody accepted, here and elsewhere, was delivered to, is waiting, was given up by expiry, is in a mailbox or is lost; nobody is lost if and only if every mailbox here that mail was accepted for takes it |
| QueueLedger.UnknownLocalLost | server/mailqueue.cpp:496-517 | a message to one address here without a mailbox is answered with the count and leaves no trace |
| MailQueue.GetDomains | server/mailqueue.cpp:940-965 | the distinct domains in order of first appearance |
| MailQueue.CollectDomain | server/mailqueue.cpp:708-715 | appends exactly the recipients in one domain, in order |
| MailQueue.MailQueue.SendMessage | server/mailqueue.cpp:655-796 | 0 exactly when nobody is pending; otherwise the message keeps exactly the pending recipients, grouped by domain |
| MailQueue.MailQueue.SplitRecipients | server/mailqueue.cpp:491-520 | local copies are spooled, the far recipients collected in order |
| MailQueue.MailQueue.AddMessage | server/mailqueue.cpp:461-554 | the slot table moves as the specified queue does, and holds no message but the old ones and the added one |
| MailQueue.MailQueue.DeleteMessageFromQueue | server/mailqueue.cpp:556-571 | frees a slot, its time and its count, or reports a bad or empty index |
| MailQueue.MailQueue.HandleQueue | server/mailqueue.cpp:800-830 | a pass moves the table as specified, brings no message into it, and uses an empty slot if and only if some message is older than its lifetime and the clock is past the delay |
| MailQueue.RunQueue | server/mailqueue.cpp:461-830 | a queue object taken through any additions and passes ends as the specified run does, completes exactly when that does, and accounts for everybody it accepted |
| Promise.OkMeansTaken | server/smtpsrvs.cpp:632-769 | over any run of a session, the lines sent that say 250 at the end of data are as many as the mails the queue took; a session that has settled on LMTP handed over none |
| Promise.PromiseKept | server/smtpsrvs.cpp:632-769 | any number of sessions take lines in any order, with passes over the queue in between, and the queue answers each mail when it is handed over: unless a pass fails, each session has sent as many lines that say 250 at the end of data as mails were taken of it, every recipient of every mail taken was delivered to, waits, was given up by expiry, is in a mailbox here or is lost here, and nobody is lost if and only if every mailbox here that was promised takes mail |
| Promise.PromiseBroken | server/mailqueue.cpp:496-517 | a mail to a bracketed local address nobody has, sent in any chunks, is answered 250 and handed over, and the queue answers with its count and keeps nothing of it |
| Dictionary.DictionaryHash | iniparser/dictionary.c:118-137 | the 32-bit hash with its wrap-around |
| Dictionary.KnownHashes | iniparser/dictionary.c:118-137 | the hash of `a` and of `ab` are the known values |
| Dictionary.TakenMeaning | iniparser/dictionary.c:255-301 | with fewer keys than slots there is a hole, so the search for a free slot ends |
| Dictionary.Dictionary.constructor | iniparser/dictionary.c:150-166 | an empty map in a table of the given size, and of at least 128 slots |
| Dictionary.Dictionary.Find | iniparser/dictionary.c:209-227 | the slot of a key despite holes, by hash and then by key |
| Dictionary.Dictionary.Get | iniparser/dictionary.c:209-227 | map lookup with a default |
| Dictionary.Dictionary.Grow | iniparser/dictionary.c:68-101 | doubles the table and keeps the map |
| Dictionary.Dictionary.FreeSlot | iniparser/dictionary.c:289-294 | the wrap-around search finds an empty slot |
| Dictionary.Dictionary.Set | iniparser/dictionary.c:255-301 | map update |
| Dictionary.Dictionary.Unset | iniparser/dictionary.c:314-349 | map removal |
| IniRoundTrip.ValueSurvives | iniparser/iniparser.c:633-698 | what the reader makes of a written value is the value if and only if it is of the described form |
| IniRoundTrip.SpaceCodes | iniparser/iniparser.c:64-109 | blanks are the code 32 and the codes 9 to 13 |
| IniRoundTrip.LowerCodes | iniparser/iniparser.c:45-57 | lower case adds 32 to the codes 65 to 90 and leaves every other character |
| IniRoundTrip.EntryColumns | iniparser/iniparser.c:296-320 | the equals sign of an entry stands in column 32, or behind a longer key and one blank |
| IniRoundTrip.EntryLineRoundTrip | iniparser/iniparser.c:633-698 | one line, as it is handed to the line reader, parses to the written key and value if and only if the value is of that form |
| IniExact.EntryLoadsExactly | iniparser/iniparser.c:714-820 | a written entry and the empty line behind it load to exactly that key and value if and only if the line fits the buffer and the value is one line of that form that does not end in a backslash |
| IniExact.BackslashLost | iniparser/iniparser.c:768-777 | the value `a\` loads as `a` |
| IniExact.LoadedTame | iniparser/iniparser.c:714-820 | whatever the text, no loaded value holds a line end |
| IniFacts.KeysAreLower | iniparser/iniparser.c:714-820 | whatever the text, no loaded key holds a capital |
| IniFacts.ContinuedJoins | iniparser/iniparser.c:768-777 | a line that ends in a backslash and the next one load as the one line they make up |
| IniFacts.CommentsPassed | iniparser/iniparser.c:633-660 | a line that starts with `#` or `;` and is not continued loads as nothing |
| IniFacts.NoEqualsRefused | iniparser/iniparser.c:714-820 | a line without an equals sign that is no comment and no section refuses the whole file |
| IniFacts.EmptyBrackets | iniparser/iniparser.c:633-660 | the line `[]` keeps the section, cut to its first character |
| IniFacts.KnownDump | iniparser/iniparser.c:258-320 | a dump of one section, spelled out |
| IniFacts.KnownFlatDump | iniparser/iniparser.c:258-282 | a dump without sections, spelled out |
| IniRoundTrip.StripAfterBlank | iniparser/iniparser.c:91-109 | the order of stripping the two ends and a leading blank make no difference |
| IniRoundTrip.LoadRendered | iniparser/iniparser.c:714-820 | loading well-formed lines binds exactly what they say |
| IniDump.DumpLoadRoundTrip | iniparser/iniparser.c:258-320 | loading the text of a dumped well-formed dictionary gives the same map |
| IniDumpExact.DumpLoadsExactly | iniparser/iniparser.c:258-320 | a dictionary with the keys of an INI file loads back from its dumped text to the same map if and only if its sections have no value and every entry survives on its line |
| IniDump.SectionsAre | iniparser/iniparser.c:164-215 | the enumerated sections are exactly the keys without a colon |
| IniParser.StrLwc | iniparser/iniparser.c:45-57 | lower case, cut at the length |
| IniParser.StrStrip | iniparser/iniparser.c:91-109 | the text without the blanks at its ends |
| IniParser.IniparserLine | iniparser/iniparser.c:633-698 | the kind, section, key and value of a line |
| IniParser.IniparserLoad | iniparser/iniparser.c:714-820 | the dictionary of a whole text, or none when a line is too long or in error |
| IniParser.GetNSec | iniparser/iniparser.c:164-179 | the number of sections |
| IniParser.GetSecName | iniparser/iniparser.c:195-215 | the n-th section, in slot order |
| IniParser.DumpSectionIni | iniparser/iniparser.c:296-320 | the text of one section |
| IniParser.DumpIni | iniparser/iniparser.c:258-282 | the text of all sections, or of all keys when there is none |
| Base64.DecodeEncode | base64/decoder.cpp:47-110 | decoding undoes encoding for every non-empty byte string, in all padding cases |
| Base64.EncodeDecode | base64/decoder.cpp:47-110 | encoding undoes decoding on canonical text |
| Base64.CanonicalIsEncoded | base64/decoder.cpp:81-110 | canonical text is an encoding of a non-empty byte string |
| Base64.EncodedIsCanonical | base64/decoder.cpp:81-110 | every encoding of a non-empty byte string is canonical |
| Base64.SymbolCodes | base64/decoder.cpp:6-15 | the alphabet by character codes: capitals, small letters, digits, plus and slash |
| Base64.SameNumber | base64/decoder.cpp:81-110 | four sextets are the digits in base 64 of the number whose digits in base 256 are the three bytes |
| Base64.KnownEncodings | base64/decoder.cpp:81-110 | the encodings of one, two and three bytes are the test vectors of section 10 of RFC 4648 |
| Base64Codec.SymbolInjective | base64/decoder.cpp:6-15 | no two cells of the encoding table are equal |
| Base64Codec.Init | base64/decoder.cpp:41-45 | the loop makes the decoding table invert the encoding table |
| Base64Codec.Base64Encode | base64/decoder.cpp:81-110 | the array holds the padded encoding and a NUL |
| Base64Codec.Base64Decode | base64/decoder.cpp:47-79 | the decoded bytes, or nothing when the length is no multiple of four |
| MessageId.DecodeEncode36 | base64/decoder.cpp:112-129 | decoding undoes encoding for every 64-bit value |
| MessageId.ThirteenDigits | base64/decoder.cpp:112-124 | a 64-bit value needs at most 13 digits, so the buffer is large enough |
| MessageId.Base36Encode | base64/decoder.cpp:112-124 | the digits, filled in from the end of the buffer |
| MessageId.TimeValueOrder | server/mailqueue.cpp:312-324 | time values order exactly as the calendar times do |
| MessageId.TimeFields | server/mailqueue.cpp:312-324 | the calendar fields are the decimal digits of the time value, two digits each and four for the year |
| MessageId.RandomDigits | server/mailqueue.cpp:326-336 | drawn digit i is decimal digit i of the random value |
| MessageId.KnownId | server/mailqueue.cpp:125-162 | one id, spelled out |
| MessageId.GetRandValue | server/mailqueue.cpp:326-336 | the number with the drawn decimal digits |
| MessageId.IdsDiffer | server/mailqueue.cpp:125-162 | equal ids in one domain have equal time and random parts |
| MessageId.IdsOfTimesDiffer | server/mailqueue.cpp:125-162 | ids made at different times in one domain differ |
| MessageId.GenerateMessageId | server/mailqueue.cpp:125-162 | the id is built from the time, the random value and the domain |
| DnsName.ChangetoDNSNameFormat | server/resolve.cpp:144-162 | every label behind its length, then a zero |
| DnsName.CopyName | server/resolve.cpp:216-246 | on every message where the copy loop ends, whichever way the pointers go, it copies all bytes but pointers and counts those the name takes where it stands |
| DnsName.EndsExactly | server/resolve.cpp:227-241 | when the followed pointers go back from where they stand, the loop ends if and only if each goes before the start of its run |
| DnsName.IntoRunNeverEnds | server/resolve.cpp:227-241 | a pointer back into its own run of bytes is followed for ever, from every byte of the run |
| DnsName.LoopNeverEnds | server/resolve.cpp:227-241 | the loop never ends on one four-byte message |
| DnsName.EndsSoon | server/resolve.cpp:227-241 | on any message the loop ends, if at all, in fewer rounds than the message has bytes |
| DnsName.NameCopied | server/resolve.cpp:216-246 | on labels of up to 191 bytes with pointers in any direction, the bytes copied are exactly the labels behind their lengths |
| DnsName.DotsInPlace | server/resolve.cpp:248-258 | lengths become dots in place |
| DnsName.ReadName | server/resolve.cpp:216-263 | the dotted name with pointers followed, and its extent; nothing for the empty name |
| DnsName.SplitDotted | server/resolve.cpp:144-162 | a dotted host name is written as exactly its labels |
| DnsName.WrittenIsReadable | server/resolve.cpp:216-263 | a written name can be read wherever it stands in a message |
| DnsName.NameRoundTrip | server/resolve.cpp:144-263 | reading undoes writing for every host of labels of 1 to 191 bytes below 192 |
| DnsName.PointerFollowed | server/resolve.cpp:227-231 | the bytes 192 + o / 256 and o % 256 are followed to o, for every o below 16384 |
| DnsName.CompressedIsReadable | server/resolve.cpp:216-263 | labels and a pointer to any readable name read as the labels and that name, and take the labels and two bytes |
| DnsName.CompressedRoundTrip | server/resolve.cpp:144-263 | with one host written at any offset below 16384 and, elsewhere, another followed by a pointer to it, reading gives the two joined by a dot, and the extent up to the pointer's end |
| DnsName.KnownName | server/resolve.cpp:144-162 | `www.a`, byte by byte |
| HeaderParser.HeaderParser.GetField | server/header.cpp:24-36 | the value of the first field of that name |
| HeaderParser.HeaderParser.SetField | server/header.cpp:38-67 | replaces or appends, and says where the copy leaves out the NUL |
| HeaderParser.HeaderParser.AddField | server/header.cpp:69-82 | appends a field unless the table is full |
| HeaderParser.HeaderParser.ReadMail | server/header.cpp:84-124 | fields with continuation lines, then the body, and where the arrays do not hold what is read |
| HeaderParser.HeaderParser.GenerateHeader | server/header.cpp:126-141 | the text of the fields in order |
| HeaderFields.MergedKeeps | server/header.cpp:38-67 | of repeated names each is kept once, in the order of first appearance, with its last value |
| HeaderLines.AfterField | server/header.cpp:102-109 | a field line sets its name to what stands two characters behind the name, and has no result when nothing stands behind the colon |
| HeaderLines.AfterFold | server/header.cpp:99-109 | a continuation line goes to the current field behind a tab, nowhere without a colon, and otherwise into a field of its own |
| HeaderLines.MailRead | server/header.cpp:84-124 | any header of field lines and continuation lines that fits the arrays and holds something behind every colon is read as the fields its lines are read as, merged by name, and every line of the body |
| HeaderExact.KeptExactly | server/header.cpp:84-124 | reading any header of field lines and continuation lines gives exactly the fields sent, continuations included, if and only if it is intact: no name repeated, at most 64 fields, one blank behind every colon, every continuation behind a tab, no CR at the end of a field's own line, everything within the arrays |
| HeaderExact.NamesKnown | server/header.cpp:84-124 | reading brings no name that was not sent but names that start with a blank |
| HeaderExact.AllFound | server/header.cpp:84-124 | every name sent is found in what is read until the table is full |
| HeaderExact.SubjectCut | server/header.cpp:107-108 | `Subject:hello` is read as `ello` |
| HeaderExact.ReceivedLost | server/header.cpp:58-59 | of two Received lines the later value is left |
| HeaderExact.BlankFoldLost | server/header.cpp:99-111 | reading a mail with a continuation line that has neither a tab in front nor a colon, anywhere in its header, is reading it without that line |
| HeaderExact.BlankFoldIsField | server/header.cpp:102-109 | anywhere in a header, a continuation line that starts with a blank and holds a colon sets the field named by what stands before the colon, when the arrays and the table hold it, to what stands behind the colon less one character, and reading goes on from there |
| HeaderExact.BlankFoldWithColon | server/header.cpp:102-109 | ` at 10:20` behind a Received field is read as the field ` at 10` with value `0` |
| HeaderExact.TableFull | server/header.cpp:49-51 | a field with a new name is dropped when the table is full, and a continuation of it has no result |
| HeaderExact.ColonEndsHeader | server/header.cpp:99-120 | a line that starts with a colon sets a field without a name and ends the header |
| HeaderExact.TabFirst | server/header.cpp:99-100 | a tab line before the first field adds no field |
| HeaderExact.HeaderRoundTrip | server/header.cpp:84-141 | reading a generated header gives its merged fields, which are the same ordered fields if and only if no name is repeated, and the same body if and only if it is plain |
| Header.BodySurvives | server/header.cpp:113-120 | a body comes back exactly when every line ends in a bare LF and it holds no NUL |
| Header.CrLost | server/header.cpp:113-120 | a body line that ends in CR LF comes back without the CR |
| Header.ChompExactly | server/header.cpp:62-64 | one CR or LF at the end of a value is dropped, and nothing else |
| AddressList.AddressList.AddElement | server/ipaddrlist.cpp:57-72 | appends to the sequence the linked nodes stand for |
| AddressList.AddressList.DeleteElement | server/ipaddrlist.cpp:91-126 | removes one position of that sequence, or reports a bad index |
| AddressList.AddressList.FindIPAddress | server/ipaddrlist.cpp:176-189 | the first position of the address, or -1 |
| AddressList.AddressList.GetElement | server/ipaddrlist.cpp:283-292 | the node at a position, or null |
| AddressList.AddressList.ShouldAcceptConnection | server/ipaddrlist.cpp:191-201 | accepts exactly when the address's first record has a negative time or one at least the minimum time ago |
| Greylist.RunTidy | server/main.cpp:93-136 | over any run gray and white stay disjoint and free of duplicates |
| Greylist.FixedLists | server/main.cpp:93-136 | the black and initial white lists never change and the white list only grows |
| Greylist.AcceptedExactly | server/main.cpp:93-136 | over any run a connection is accepted if and only if its address is not black and was white from the start, or was recorded, in the loaded list or by its first connection, at least the minimum time ago (or with a negative time) |
| Greylist.WaitsExactly | server/main.cpp:93-136 | an address on no list, first seen at t, is declined at that connection and at every one less than the minimum time later, and accepted at every one from then on (or from the second on when t is negative) |
| Greylist.LoadedExactly | server/main.cpp:93-136 | an address loaded into gray with time t is accepted if and only if t is negative or at least the minimum time ago |
| Greylist.RecordsAre | server/main.cpp:93-136 | every new white record stands for an accepted connection of the run, with its address and time, and every new gray one for a declined connection |
| Greylist.Gatekeeper.Decide | server/main.cpp:93-136 | the decision and the new linked lists are those of the specified step, and every record in them was there or is new |
| Greylist.Gatekeeper.DecideAll | server/main.cpp:93-136 | over a run of connections on the linked lists, each is accepted as the run says, and with times in order if and only if its address deserves it; every record was there or is new |

## Left out

- SmtpSession.Session.MessageDataEnd: hands over the message buffer as it is at the size check; rewriting the header is `Stamp.StampMessage`, on a header parser that the session object does not hold. The queue's answer to each message is an arbitrary boolean; in `Promise.PromiseKept` it is the queue's own.
- SmtpSession.Session.MessageDataEndL: answers 250 without queueing anything, as the default of the source does; only the number of replies is claimed for LMTP.
- SmtpSession.Session.MessageAddRecipient: the slot a refused recipient leaves behind is not part of the state; only the first `recipients_count` slots are.
- SmtpSession.Session.EatReceivedData: the output buffer is a sequence of replies, each with its text, and the message buffer is a string value; sharing and growth of these two buffers are not modelled. `GetDataToTransmit`, `Transmitted` and `RemoteEOT` are left out.
- Buffer.InoutBuffer.ReadLine: an LF at index 0 makes the source read the byte before the buffer; the model does not look there. Lengths do not wrap at 32 bits. Both `ReadCRLFLine` members and the marker search are unused and left out.
- Login.LoginOverTheWire: decoding an empty or non-ASCII login line reads outside the source's arrays; the model leaves its outcome open.
- Stamp.StampMessage: the date, the id and the text of the trace field are arguments that fit the header arrays; the 1024-byte buffer the trace field is built in is not modelled.
- HeaderExact.KeptExactly: a header starts with a field line, and none of its lines starts with a colon; what those lines do is said by `HeaderExact.ColonEndsHeader` and `HeaderExact.TabFirst`.
- HeaderParser.HeaderParser.SetField: for an empty value the source looks at the byte before the value's array, the last one of the name's, which is 0 for every name that fits; the model leaves an empty value alone.
- Md5.Hasher.Update: each call takes fewer than 2^32 - 64 bytes, beyond which the loop bound of the source wraps. The constants of the rounds are given, not derived from the sine function. Shifts and masks of bytes and words are written as division and remainder.
- MailQueue.MailQueue.SendMessage: a delivery is one outcome per domain; the dialogue with the remote server, name resolution and sockets are left out.
- MailQueue.MailQueue.AddMessage: the message's information is in memory; reading it from its file, which may fail, is left out.
- MailQueue.MailQueue.SplitRecipients: a local copy is one recipient appended to what was spooled; mailbox files and redirects, which queue further messages, are left out.
- QueueSpec.HandleInv: states nothing of a pass that uses an emptied slot, after which the source has no defined state.
- IniParser.IniparserLoad: the file is its text; messages to the error callback are left out. `iniparser_dump`, the numeric getters and the key enumerations read the dictionary without changing it, and neither loading nor dumping uses them.
- Dictionary.Dictionary.Set: memory is never exhausted. A null key is not an argument.
- Base64Codec.Base64Decode: the empty text and bytes above 127 are excluded, for which the source indexes outside its arrays.
- Base64Codec.Base64Encode: the array has the cell for the terminator that the source forgets to allocate.
- MessageId.GenerateMessageId: the calendar fields are in range and the year has four digits.
- DnsName.ChangetoDNSNameFormat: the host's array has the cell for the dot that the source appends.
- DnsName.ReadName: the message holds a name of whole labels, without which the second loop of the source runs past its array, and the expanded name fits the 256 bytes the source allocates. For the empty name the source writes before its array; the model returns no name.
- HeaderParser.HeaderParser.ReadMail: says nothing of the state after a name of 128 or a value of 2048 characters and more, which the source stores without a NUL, after a continuation past the end of its value's array, or after a line that ends in its colon.
- Greylist.Gatekeeper.Decide: one clock reading for each connection, where the source reads the clock for the test and again for the new record; the four lists are separate. Ageing of gray records (`DeleteOldRecords`, `MoveRecordsToSpam`) iterates over records it has deleted and is left out, as are loading and saving the lists.
- MX selection compares no preferences, so there is no lowest preference to prove.
- `LoadQueue`, `SaveQueue`, `SetMaxMessageCount`, message files, the select loop, connection slots, options, logging and the daemon are plumbing.
- The user list is a map from addresses to password hashes: the session only looks addresses up in it. Its linked list and its redirects are not modelled.
