# HexChat core, verified

A Dafny model of the parts of HexChat that compute: the channel-mode string and the MODE lines, DCC
file transfers with their rate totals and the SOCKS5 set-up in front of them, plugin hooks, the
command tokeniser and the text splitter, the FiSH and DH1080 codecs, the configuration files, the
ignore list, the input history and the activity queue.

Code that works in place is a class or a method over arrays, proved against a function of its inputs
or of its old state; what the program promises is then proved about those functions, for all inputs
and over whole runs. A C string is a `string` (one `char` for one byte) or a `seq<bv8>` without its
NUL. `dafny verify dfyconfig.toml` checks everything.

| file | what it is about |
|---|---|
| `CStrings.dfy` | C strings, UTF-8 character lengths, ASCII case |
| `Modes.dfy` | `record_chan_mode`: the flat mode string against an ordered table |
| `ModeBatch.dfy`, `ModeParse.dfy`, `ModeLineRoundTrip.dfy` | `send_channel_modes`, `handle_mode`, and one after the other over the wire |
| `Tokenizer.dfy`, `TokenizerRoundTrip.dfy`, `TokenizerQuoted.dfy` | `process_data_init` and the printers it inverts |
| `SplitText.dfy` | `split_up_text` and the loops that send its pieces |
| `DccStat.dfy`, `DccTransfer.dfy`, `DccDelivery.dfy`, `DccProgress.dfy` | both ends of a transfer; when it delivers the file; when it can be completed |
| `DccRates.dfy` | the global rate totals and the throttling that follows from them |
| `Socks5.dfy` | the SOCKS5 handshake of a DCC connection |
| `Hooks.dfy` | plugin hooks: order, and dispatch while callbacks change the list |
| `Fish.dfy`, `Dh1080.dfy` | the two codecs of the FiSH plugin |
| `CfgText.dfy`, `Preferences.dfy`, `Ignore.dfy` | configuration text; preferences; the ignore list |
| `History.dfy`, `Activity.dfy` | the ring of input lines; the queue of sessions with activity |

## What turned out not to hold

Each of these is kept as the code has it, and given with the exact condition under which the code
does what it is meant to do; most are also shown on a concrete input or run.

- An argument with a space breaks the mode string (`Modes.WellFormedIffSpaceFree`).
- The packing of MODE lines sets room aside for unused mode characters, so it is minimal for its own
  budget but in general not for the 512 bytes: it is for all nicks exactly when a line carries at
  most two modes, or there is hardly room for a nick (`ModeBatch.ReserveCostsLines`,
  `ModeBatch.MinimalIff`; for one list, `ModeBatch.MinimalWithoutGap`).
- A relayed MODE line of more than 27 nicks loses one, because the word table has 32 entries
  (`ModeLineRoundTrip.ModeLineParsedIff`).
- The tokeniser steps over the end of a line that is cut off inside a character, as
  `load_perform_file` cuts long lines; it stays inside exactly when no character is cut off
  (`Tokenizer.OneByteOverruns`, `Tokenizer.StaysInsideIff`).
- `dcc_get_nick` leaves `resumable` set, so the receiver appends to a file the sender starts from
  byte 0 (`DccDelivery.NickCorrupts`). Completion means delivery exactly for all other ways to accept
  an offer, or when nothing is resumable (`DccDelivery.OfferHonestIff`), and in general exactly when
  both ends start at the same byte, or the sender one later and no end ever reports completion
  (`DccDelivery.HonestIff`).
- A fast sender that has sent everything fails when it is unthrottled before the last ack, because
  it reads at the end of the file; a transfer in which nothing goes wrong fails exactly then
  (`DccDelivery.FastSenderFails`, `DccDelivery.SenderFailsIff`).
- Without fast send nothing is sent on when a send() took nothing, because no write watch is set: acks
  and reads can complete a transfer exactly when it is not in that state
  (`DccProgress.FirstSendBlocked`, `DccProgress.FinishesIff`).
- DCC chats are added to the total rate of gets and never taken out (`DccRates.GetTotalIff`,
  `DccRates.ChatLeaks`).
- Server hooks are not kept in order of priority (`Hooks.ServerOrderFails`, `Hooks.ServerOrderIff`).
- With little room the send loop never ends: it ends for every text exactly with room for seven
  bytes, for UTF-8 with five (`SplitText.StuckExample`, `SplitText.RoomEnoughIff`,
  `SplitText.Utf8RoomEnoughIff`). With a negative room the text is sent unsplit, a cut meant for a
  space can fall inside a character, and a message to a long nick can exceed 512 bytes
  (`SplitText.NegativeRoomFitsIff`, `SplitText.CutAfterSpaceIff`, `SplitText.OtherTargetFitsIff`).
- The FiSH decoder reads every byte from 128 on as a dot and drops four bits of each half group
  (`Fish.TablesInverse`, `Fish.CanonicalIff`).
- DH1080 decoding gives nothing for what the empty byte string is written as
  (`Dh1080.RoundTripIff`).
- A preference -1 and leading spaces do not survive a restart (`Preferences.SmallWindow`,
  `Preferences.RestoredIff`).
- The font list can be too long for its line, which then takes the line of the next preference with
  it (`Preferences.FontSwallowsNext`). A line always fits exactly when name and field have together
  at most 508 bytes (`Preferences.AlwaysFitsIff`), and a preference is found exactly when the line
  before its own fits (`Preferences.FoundIff`).
- A draft made 98 lines back cannot be reached by going down, and a line typed at the bottom that
  equals the one 100 back is lost (`History.DraftReachableIff`, `History.DraftKeptIff`).

## Model

| member | source | states |
|---|---|---|
| Modes.ModeChanmodeType | hexchat-hexchat-a67eafc/src/common/modes.c:604-628 | the class is the number of commas before the first occurrence of the mode, -1 when it is not listed |
| Modes.ModeHasArg | hexchat-hexchat-a67eafc/src/common/modes.c:577-601 | for CHANMODES=A,B,C,D: a mode takes an argument exactly when it is a nick mode, in A or B, or in C and being set |
| Modes.HasArgIff | hexchat-hexchat-a67eafc/src/common/modes.c:577-628 | the same for every split of the announced classes, whatever else they list |
| Modes.EncInjective | hexchat-hexchat-a67eafc/src/common/modes.c:239-367 | a well-formed mode string means one table of modes and arguments only |
| Modes.RecordMeans | hexchat-hexchat-a67eafc/src/common/modes.c:325-366 | after "+x" the mode is in the table once, with its argument; after "-x" it is not; all other modes keep argument and order |
| Modes.SetAppends | hexchat-hexchat-a67eafc/src/common/modes.c:341-357 | on any string, a mode that was not set goes behind the mode characters and its argument to the end |
| Modes.EditStringCorrect | hexchat-hexchat-a67eafc/src/common/modes.c:256-366 | on the string of any valid table the offset arithmetic carries out exactly the change of the table: append, replace the argument, remove, or nothing |
| Modes.RunRefines | hexchat-hexchat-a67eafc/src/common/modes.c:239-367 | every run of changes with space-free arguments keeps the string the encoding of the table that went through the same changes |
| Modes.WellFormedIffSpaceFree | hexchat-hexchat-a67eafc/src/common/modes.c:323-352 | setting an argument keeps the string well formed exactly when the argument has no space |
| Modes.FindMode | hexchat-hexchat-a67eafc/src/common/modes.c:257-280 | the mode is searched among the characters before the first space only; -1 when it is not there |
| Modes.FindArgument | hexchat-hexchat-a67eafc/src/common/modes.c:282-323 | the counting and walking loops find the offset and length of the argument that belongs to the mode, 0 when the string has too few |
| Modes.Session.RecordChanMode | hexchat-hexchat-a67eafc/src/common/modes.c:239-367 | whatever valid table current_modes encodes, afterwards it encodes the table with the change applied; on any string it is the stated edit, and a new mode of class C is appended with a space and its argument |
| ModeBatch.Server.SendChannelModes | hexchat-hexchat-a67eafc/src/common/modes.c:63-124 | it terminates, raises modes_per_line to three, and sends exactly the lines of the greedy packing, in order |
| ModeBatch.HowManyFit | hexchat-hexchat-a67eafc/src/common/modes.c:83-101 | the counting loop gives the first group of the packing, 0 when the first nick does not fit |
| ModeBatch.BuildArg | hexchat-hexchat-a67eafc/src/common/modes.c:103-118 | the text passed on is the sign, one mode character for each nick, and the nicks in order |
| ModeBatch.WireExample | hexchat-hexchat-a67eafc/src/common/modes.c:103-120 | the line for two nicks, as it is sent |
| ModeBatch.PackSends | hexchat-hexchat-a67eafc/src/common/modes.c:79-123 | the nicks before the first that does not fit a line alone go out exactly once and in order; every line keeps to the mode limit and the budget |
| ModeBatch.LinesFull | hexchat-hexchat-a67eafc/src/common/modes.c:88-101 | every line is full: the first nick of the next one had no place on it |
| ModeBatch.AllSentIff | hexchat-hexchat-a67eafc/src/common/modes.c:79-123 | all nicks are sent exactly when each of them fits a line alone |
| ModeBatch.PackMinimal | hexchat-hexchat-a67eafc/src/common/modes.c:79-123 | no partition of the nicks into consecutive groups within the same budget has fewer lines |
| ModeBatch.WireLineFits | hexchat-hexchat-a67eafc/src/common/proto-irc.c:300-304 | a line within the budget, with MODE, the channel and CRLF, has at most 512 bytes |
| ModeBatch.WireFitsIff | hexchat-hexchat-a67eafc/src/common/modes.c:84-88 | what fits 512 bytes: at most the mode limit, and the mode characters used with the spaced nicks within the room |
| ModeBatch.FullLineExact | hexchat-hexchat-a67eafc/src/common/modes.c:84-101 | for a line with as many nicks as modes the budget is exactly the 512 bytes |
| ModeBatch.MinimalWithoutGap | hexchat-hexchat-a67eafc/src/common/modes.c:79-123 | no partition into lines of 512 bytes is shorter, unless some run of fewer nicks than modes fits 512 bytes and not the budget |
| ModeBatch.MinimalIff | hexchat-hexchat-a67eafc/src/common/modes.c:79-123 | so it is for all lists of nicks exactly when a line carries at most two modes, or the room for a nick is used up, or three modes and one byte |
| ModeBatch.ReserveCostsLines | hexchat-hexchat-a67eafc/src/common/modes.c:84-88 | with the limit of three, two ban masks that fit one line of 512 bytes are sent on two |
| ModeParse.HandleMode | hexchat-hexchat-a67eafc/src/common/modes.c:671-785 | the calls of handle_single_mode are exactly those of the specification, for MODE and for numeric 324 |
| ModeParse.CountArguments | hexchat-hexchat-a67eafc/src/common/modes.c:726-738 | counts the words after the mode word up to the first empty one, none after one that starts with a colon, never past the table |
| ModeParse.CountModeChars | hexchat-hexchat-a67eafc/src/common/modes.c:740-748 | counts the characters that are not signs |
| ModeParse.CountArgsMeans | hexchat-hexchat-a67eafc/src/common/modes.c:726-738 | the arguments end at the first empty word, at the end of the table, or with the first word that starts with a colon |
| ModeParse.TrailingArgument | hexchat-hexchat-a67eafc/src/common/modes.c:766-769 | a last argument behind a colon is the rest of the line, spaces included, but for one at the end |
| ModeParse.ColonIgnored | hexchat-hexchat-a67eafc/src/common/modes.c:697-699 | a colon before the modes makes no difference |
| ModeParse.DispatchConsumes | hexchat-hexchat-a67eafc/src/common/modes.c:753-775 | the j-th change has the sign in force and, if its mode wants one, the argument whose number is the count of those wanted before it; an empty one past the end |
| ModeLineRoundTrip.WireIsLine | hexchat-hexchat-a67eafc/src/common/modes.c:103-120 | the line sent, with its sender in front, is the printed form of its words |
| ModeLineRoundTrip.TokenizerGivesTables | hexchat-hexchat-a67eafc/src/common/outbound.c:152-235 | what process_data_init leaves for a server line of these words is exactly the words and the rests of the line that handle_mode is given |
| ModeLineRoundTrip.LineWordsPrintable | hexchat-hexchat-a67eafc/src/common/proto-irc.c:300-304 | every word of a relayed MODE line can be tokenised back when source, channel and nicks are proper parameters |
| ModeLineRoundTrip.ModeLineParsed | hexchat-hexchat-a67eafc/src/common/modes.c:725-778 | a line with at most 27 nicks is parsed into one change for each nick, in order, whatever the server says about modes |
| ModeLineRoundTrip.ModeLineParsedIff | hexchat-hexchat-a67eafc/src/common/modes.c:725-778 | a line gives one change for each nick exactly when it has at most 27 |
| ModeLineRoundTrip.AllLinesParsed | hexchat-hexchat-a67eafc/src/common/modes.c:671-785 | the changes of all lines together name the nicks of all groups in order |
| ModeLineRoundTrip.EveryNickOnce | hexchat-hexchat-a67eafc/src/common/modes.c:63-124 | end to end: when every nick is a proper parameter, fits a line alone, and at most 27 go on a line, the tables the tokeniser fills for the received lines are parsed into one change for each nick, in order |
| Tokenizer.ProcessDataInit | hexchat-hexchat-a67eafc/src/common/outbound.c:152-235 | for every line: the walk leaves the line exactly when its end cuts off a character; else a buffer one byte longer than the line suffices, and the entries are the words in it and the rest of the line, empty after the last word, at most 31 |
| Tokenizer.OneTurn | hexchat-hexchat-a67eafc/src/common/outbound.c:171-232 | every turn on a whole character makes the step of the specification and leaves the write index at or before the read index; only a cut character leaves the line |
| Tokenizer.FillWords | hexchat-hexchat-a67eafc/src/common/outbound.c:169-233 | over the whole line the write index never passes the read index and the tables stay right, or the line is left, exactly when a character is cut off |
| Tokenizer.TurnAdvances | hexchat-hexchat-a67eafc/src/common/outbound.c:171-232 | how far a turn moves, and whether it is inside quotes, depends on the line and the quotes only |
| Tokenizer.StaysInsideIff | hexchat-hexchat-a67eafc/src/common/outbound.c:171-232 | that walk ends at the NUL exactly when no character is cut off, for both treatments of quotes |
| Tokenizer.OneByteOverruns | hexchat-hexchat-a67eafc/src/common/outbound.c:215-231 | the line of one byte 0xF0 leaves the pointer three bytes behind the line |
| CStrings.SkipMeans | hexchat-hexchat-a67eafc/src/common/outbound.c:216-231 | a character is as long as its first byte says: as many bytes as that has leading bits set, from two to six |
| Tokenizer.DefaultTurn | hexchat-hexchat-a67eafc/src/common/outbound.c:213-231 | the copied character and the cleared space flag are those of the step |
| TokenizerRoundTrip.LineRoundTrip | hexchat-hexchat-a67eafc/src/common/outbound.c:169-233 | words with quotes doubled, wrapped when they hold a space, and joined by spaces come back exactly, with the rest of the line from each |
| TokenizerRoundTrip.TablesHoldWords | hexchat-hexchat-a67eafc/src/common/outbound.c:152-235 | so a caller finds exactly those words in the entries 1 to 31 |
| TokenizerQuoted.QuotedRoundTrip | hexchat-hexchat-a67eafc/src/common/outbound.c:169-233 | where quotes cannot be escaped: words between quotes, empty ones too, come back exactly whatever the number of spaces between them, with the rest of the line behind the first of those |
| SplitText.SplitUpText | hexchat-hexchat-a67eafc/src/common/outbound.c:2636-2690 | it returns no piece exactly when the text fits the unsigned room, else the beginning up to the specified cut |
| SplitText.Say | hexchat-hexchat-a67eafc/src/common/outbound.c:4613-4633 | the loop sends exactly the specified pieces, or comes to an empty piece and is stuck |
| SplitText.CutNothingIff | hexchat-hexchat-a67eafc/src/common/outbound.c:2664-2673 | nothing is cut off exactly when the first character alone fills the room |
| SplitText.PiecesConcat | hexchat-hexchat-a67eafc/src/common/outbound.c:4619-4632 | whatever the room, the pieces together are the text byte for byte |
| SplitText.PiecesFit | hexchat-hexchat-a67eafc/src/common/outbound.c:2661-2689 | all pieces but the last are shorter than the room and not empty; the last is at most as long |
| SplitText.PiecesEnd | hexchat-hexchat-a67eafc/src/common/outbound.c:2664-2673 | room for one byte more than the longest character of a text is enough for that text |
| SplitText.RoomEnoughIff | hexchat-hexchat-a67eafc/src/common/outbound.c:2664-2673 | the loop ends for every text exactly when there is room for seven bytes |
| SplitText.Utf8RoomEnoughIff | hexchat-hexchat-a67eafc/src/common/outbound.c:2664-2673 | for every UTF-8 text exactly when there is room for five |
| SplitText.SayEndsIff | hexchat-hexchat-a67eafc/src/common/outbound.c:2639-2659 | in a session: exactly when the room is negative and wraps around, or seven bytes at least |
| SplitText.StuckIff | hexchat-hexchat-a67eafc/src/common/outbound.c:4619-4629 | for one text it never ends exactly when it comes to a rest that is too long and begins with a character that fills the room |
| SplitText.StuckExample | hexchat-hexchat-a67eafc/src/common/outbound.c:2664-2673 | a four-byte character with room for four bytes is such a rest |
| SplitText.NegativeRoomUnsplit | hexchat-hexchat-a67eafc/src/common/outbound.c:2639-2659 | a negative room wraps around and the text is sent whole |
| SplitText.NegativeRoomFitsIff | hexchat-hexchat-a67eafc/src/common/outbound.c:2643-2661 | such a line fits only when one byte was lacking and the text is empty |
| SplitText.AsciiCut | hexchat-hexchat-a67eafc/src/common/outbound.c:2674-2684 | ASCII text is cut after the last space if that is among the last 19 bytes, else one byte before the room ends |
| SplitText.CutAfterSpaceIff | hexchat-hexchat-a67eafc/src/common/outbound.c:2677-2684 | the cut falls right after the space exactly when all characters before it have one byte |
| SplitText.OffsetCounts | hexchat-hexchat-a67eafc/src/common/outbound.c:2677-2684 | the offset that is used for the space is the number of characters before it, for UTF-8 |
| SplitText.NoSpaceWhole | hexchat-hexchat-a67eafc/src/common/outbound.c:2664-2674 | without a space no character is cut in two |
| SplitText.SpaceCutsCharacter | hexchat-hexchat-a67eafc/src/common/outbound.c:2680-2684 | with one it can be: a concrete text cut inside its second character |
| SplitText.RelayedLength | hexchat-hexchat-a67eafc/src/common/outbound.c:4616-4617 | the command lengths of the callers are the real lengths of PRIVMSG, ACTION and NOTICE around the text |
| SplitText.RoomExact | hexchat-hexchat-a67eafc/src/common/outbound.c:2643-2659 | a line to the channel whose text fills the room has 511 bytes, with 74 allowed for an unknown user@host |
| SplitText.ChannelLinesFit | hexchat-hexchat-a67eafc/src/common/outbound.c:2643-2659 | every line said to the channel, as relayed by the server, has at most 512 bytes, given at most 74 for an unknown user@host |
| SplitText.OtherTargetFitsIff | hexchat-hexchat-a67eafc/src/common/outbound.c:2841-2850 | for messages to any nick all texts fit exactly when the nick is at most one byte longer than the open channel |
| DccTransfer.Dcc.DccSendData | hexchat-hexchat-a67eafc/src/common/dcc.c:1414-1483 | one call waits while throttled or while an ack is awaited, else fails exactly when nothing can be read or the socket is dead, else sends what send() takes of the file from pos on |
| DccTransfer.Dcc.DccHandleNewAck | hexchat-hexchat-a67eafc/src/common/dcc.c:1485-1525 | an ack for all that was sent makes an ordinary transfer go on with the next bytes of the file; done exactly when all is sent and acknowledged; the rest as AckMeans says |
| DccTransfer.AckMeans | hexchat-hexchat-a67eafc/src/common/dcc.c:1485-1525 | complete, waiting, or going on, exactly when; for files of any size; the position grows by what is sent and gives the ack its upper half |
| DccTransfer.Dcc.Understand | hexchat-hexchat-a67eafc/src/common/dcc.c:1495-1502 | the ack as taken in: below 4 GB counted from the resume point once one was smaller than that, else as it is |
| DccTransfer.Dcc.DccSendAck | hexchat-hexchat-a67eafc/src/common/dcc.c:650-656 | four bytes, the most significant first, that make the low 32 bits of pos |
| DccTransfer.Dcc.DccRead | hexchat-hexchat-a67eafc/src/common/dcc.c:658-779 | one event leaves file, acks and state as the specified loop does, for every script of recv and write results |
| DccTransfer.Dcc.DccReadTurn | hexchat-hexchat-a67eafc/src/common/dcc.c:712-778 | one turn of that loop, with the acks it sends on throttling, blocking, a failed write and completion |
| DccTransfer.ReadTurnMeans | hexchat-hexchat-a67eafc/src/common/dcc.c:712-778 | what is written, when the turn is the last, with which state, and that exactly one ack goes out when reading stops with something unacknowledged or the file is complete |
| DccTransfer.OpenMeans | hexchat-hexchat-a67eafc/src/common/dcc.c:666-711 | the file is appended to from the resume point or started anew; when it cannot be opened the transfer fails unread |
| DccTransfer.StreamStep | hexchat-hexchat-a67eafc/src/common/dcc.c:658-779 | every event at either end keeps: the receiver's file and the bytes in flight are what it had and what the sender has sent |
| DccTransfer.StreamRun | hexchat-hexchat-a67eafc/src/common/dcc.c:1414-1525 | so does every run, even when the ends disagree about where to start |
| DccTransfer.InvStep | hexchat-hexchat-a67eafc/src/common/dcc.c:1485-1525 | every event keeps the acks in flight in order and within what was written, the offset off, and without fast send at most the largest block in use unacknowledged |
| DccTransfer.TransferSafe | hexchat-hexchat-a67eafc/src/common/dcc.c:1414-1525 | over every run from an agreed start: done at either end means the destination is the source; no false ack offset; without fast send never more unacknowledged than the largest block used in the run |
| DccTransfer.AckRoundTrip | hexchat-hexchat-a67eafc/src/common/dcc.c:1492-1493 | every 32-bit ack is read as it was sent |
| DccTransfer.NtohlMeans | hexchat-hexchat-a67eafc/src/common/dcc.c:1492-1493 | the four bytes are the digits of the ack to the base of 256, the most significant first |
| DccDelivery.NeverDelivered | hexchat-hexchat-a67eafc/src/common/dcc.c:658-779 | with the sender ahead of the receiver the file stays short and the receiver is never done, in every run |
| DccDelivery.DeliveredIff | hexchat-hexchat-a67eafc/src/common/dcc.c:658-779 | with the receiver ahead and done the file is right exactly when it was not written past the end and the source repeats itself at that distance |
| DccDelivery.FalselyDone | hexchat-hexchat-a67eafc/src/common/dcc.c:1485-1525 | with the sender two bytes ahead or more, whatever the file, a run in which it reports a finished transfer over a short file |
| DccDelivery.WrittenPastEnd | hexchat-hexchat-a67eafc/src/common/dcc.c:658-779 | with the receiver ahead, whatever the file, a run in which it reports a finished transfer of one byte too many |
| DccDelivery.HonestIff | hexchat-hexchat-a67eafc/src/common/dcc.c:1414-1525 | completion at either end means delivery in every run exactly when both start at the same byte, or the sender one later, and then no end is ever done |
| DccDelivery.OfferHonestIff | hexchat-hexchat-a67eafc/src/common/dcc.c:2165-2236 | so for every offer and way to accept it: exactly unless dcc_get_nick is used, without automatic resuming, on an offer that can be resumed |
| DccDelivery.NickCorrupts | hexchat-hexchat-a67eafc/src/common/dcc.c:2223-2228 | such an offer of two bytes: the transfer is done and the file is wrong |
| DccDelivery.AcceptedMeans | hexchat-hexchat-a67eafc/src/common/dcc.c:2165-2236 | where each end starts for every way to accept, and that only resuming nothing is refused |
| DccDelivery.ResumeMeans | hexchat-hexchat-a67eafc/src/common/dcc.c:2583-2590 | a resume offset is taken exactly when it lies in the file |
| DccDelivery.FailedStays | hexchat-hexchat-a67eafc/src/common/dcc.c:1414-1525 | a failed sender stays failed |
| DccDelivery.HealthyRun | hexchat-hexchat-a67eafc/src/common/dcc.c:1414-1525 | from every state that keeps the invariant, a run in which nothing goes wrong ends failed exactly when the sender read at the end of the file |
| DccDelivery.SenderFailsIff | hexchat-hexchat-a67eafc/src/common/dcc.c:1443-1446 | so from every agreed start: exactly when a fast, unthrottled sender with everything sent is called once more |
| DccDelivery.FastSenderFails | hexchat-hexchat-a67eafc/src/common/dcc.c:100-125 | a concrete transfer: everything is sent, the limit throttles it and lets go again, and it fails |
| DccProgress.Delivers | hexchat-hexchat-a67eafc/src/common/dcc.c:1414-1525 | from an agreed start, without fast send, one send and then acks and reads alone bring both ends to completion with the whole file delivered |
| DccProgress.FinishesIff | hexchat-hexchat-a67eafc/src/common/dcc.c:1414-1525 | after every history in which nothing went wrong acks and reads can still complete it so, exactly when it is not waiting with nothing in flight either way |
| DccProgress.FirstSendBlocked | hexchat-hexchat-a67eafc/src/common/dcc.c:1432-1440 | a first send() that takes nothing is enough for that |
| DccRates.SendTotal | hexchat-hexchat-a67eafc/src/common/dcc.c:127-216 | in every history the total of sends is the sum of the rates of the active sends |
| DccRates.GetTotalIff | hexchat-hexchat-a67eafc/src/common/dcc.c:150-155 | the total of gets is right exactly when the rates last measured for all chats that ever were cancel out |
| DccRates.GetTotalWithoutChats | hexchat-hexchat-a67eafc/src/common/dcc.c:127-216 | without chats the total of gets is right in every history |
| DccRates.ChatLeaks | hexchat-hexchat-a67eafc/src/common/dcc.c:207-216 | one chat, measured after its clock was started and then removed, throttles a later get although nothing is received |
| DccRates.SendsThrottledAtLimit | hexchat-hexchat-a67eafc/src/common/dcc.c:182-200 | after any history a measured send is throttled globally exactly when the active sends together reach the limit |
| DccRates.ThrottledIff | hexchat-hexchat-a67eafc/src/common/dcc.c:127-205 | after any history: throttled by its own limit exactly when its rate exceeds it, and by that of all exactly when the total of its kind, chats included for gets, has come to it and it is not exempt |
| DccRates.StepKeeps | hexchat-hexchat-a67eafc/src/common/dcc.c:371-438 | offers, connects, failing connects and accepts, ticks, completions, aborts and removals each keep both totals accounted for |
| DccRates.TickedKeeps | hexchat-hexchat-a67eafc/src/common/dcc.c:240-302 | a tick does, even when unthrottling ends the transfer and it is then closed again for stalling |
| DccRates.TickedMeans | hexchat-hexchat-a67eafc/src/common/dcc.c:240-302 | in each state: offers time out only when they are ours, finished ones go when that is wanted, active ones are given up exactly when they stall without being throttled |
| DccRates.ComesAbout | hexchat-hexchat-a67eafc/src/common/dcc.c:1367-1410 | offered, connecting, active, or failed; only our offers become active without connecting |
| DccRates.AbortMeans | hexchat-hexchat-a67eafc/src/common/dcc.c:440-473 | what is not over is aborted, what is over is removed |
| DccRates.TransferredKeeps | hexchat-hexchat-a67eafc/src/common/dcc.c:763-776 | completion does, because the average replaces the rate after the close |
| DccRates.TransferredMeans | hexchat-hexchat-a67eafc/src/common/dcc.c:763-776 | a finished transfer keeps its average, a failed one its rate, and a chat goes on |
| DccRates.DccList.DccCalcCps | hexchat-hexchat-a67eafc/src/common/dcc.c:127-205 | the total moves by what the rate moves, both throttle bits are set anew, and it unthrottles exactly when a throttled connection no longer is |
| DccRates.DccList.DccRemoveFromSum | hexchat-hexchat-a67eafc/src/common/dcc.c:207-216 | only active sends and gets are taken out of their total |
| DccRates.DccList.DccClose | hexchat-hexchat-a67eafc/src/common/dcc.c:371-438 | closing and destroying take the rate out once and keep the totals |
| DccRates.DccList.Transfer | hexchat-hexchat-a67eafc/src/common/dcc.c:1503-1513 | failing and finishing a transfer keep the totals |
| DccRates.DccList.CheckTimeout | hexchat-hexchat-a67eafc/src/common/dcc.c:252-299 | what a tick does to one connection in each state |
| DccRates.DccList.DccCheckTimeouts | hexchat-hexchat-a67eafc/src/common/dcc.c:240-302 | the k-th tick of the walk is for the connection that was k-th at the start, as it was, also when it removes some on the way |
| DccRates.DccList.DccConnect | hexchat-hexchat-a67eafc/src/common/dcc.c:1367-1410 | connecting changes the state only and keeps the totals |
| DccRates.DccList.DccAbort | hexchat-hexchat-a67eafc/src/common/dcc.c:440-473 | an unfinished connection is aborted, a finished one destroyed |
| Socks5.VerdictStable | hexchat-hexchat-a67eafc/src/common/dcc.c:1054-1254 | a verdict does not depend on what follows in the stream |
| Socks5.VerdictAtItsByte | hexchat-hexchat-a67eafc/src/common/dcc.c:1054-1254 | it is reached exactly at the byte it names, not before |
| Socks5.VerdictIff | hexchat-hexchat-a67eafc/src/common/dcc.c:1054-1254 | the verdict byte by byte: granted and refused exactly when, and after how many bytes |
| Socks5.ConsumedExactly | hexchat-hexchat-a67eafc/src/common/dcc.c:1206-1252 | success takes exactly the method reply, the password reply if asked for, and 10, 22 or 7 + len bytes of CONNECT reply |
| Socks5.ConnectMeans | hexchat-hexchat-a67eafc/src/common/dcc.c:1179-1194 | the CONNECT request names the IPv4 address and the port, most significant byte first |
| Socks5.AuthReads | hexchat-hexchat-a67eafc/src/common/dcc.c:1117-1129 | the password request, read field by field, gives back exactly user and password |
| Socks5.ChunkingDoesNotMatter | hexchat-hexchat-a67eafc/src/common/dcc.c:1054-1254 | however the stream is chopped, an ended handshake has the verdict on the whole stream and the bytes it names |
| Socks5.WaitingIsRight | hexchat-hexchat-a67eafc/src/common/dcc.c:886-914 | a handshake that waits with nothing left to read has no verdict yet |
| Socks5.ReadyIsPending | hexchat-hexchat-a67eafc/src/common/dcc.c:1054-1254 | while it goes on the verdict is open and exactly one of the two watches is set |
| Socks5.Handshake.Traverse | hexchat-hexchat-a67eafc/src/common/dcc.c:1054-1254 | every event keeps the machine valid, buffer bounds and the bytes sent so far included, and when bytes have arrived some are read |
| Socks5.Handshake.Drive | hexchat-hexchat-a67eafc/src/common/dcc.c:1054-1254 | for every schedule of arriving bytes and events: an ended handshake has the verdict on the whole stream and has consumed what it names; one that waits with everything read has none yet; and one that succeeded has said exactly the method offer, user and password if asked for, and the request for this address and port |
| Socks5.Handshake.ReadProxy | hexchat-hexchat-a67eafc/src/common/dcc.c:886-914 | what is read goes behind what was there, up to buffersize and not further; a lost connection fails |
| Socks5.Handshake.WriteProxy | hexchat-hexchat-a67eafc/src/common/dcc.c:916-944 | the buffer goes out in order, as far as send takes it |
| Hooks.HookTable.InsertHook | hexchat-hexchat-a67eafc/src/common/plugin.c:731-763 | the hook goes before the first peer of no higher priority, else to the end |
| Hooks.HookTable.AddHook | hexchat-hexchat-a67eafc/src/common/plugin.c:789-817 | it keeps the order and every node that was there |
| Hooks.HookTable.Unhook | hexchat-hexchat-a67eafc/src/common/plugin.c:939-958 | it marks and frees a live hook once, leaves all nodes in place, and fails on one unhooked before |
| Hooks.InsertKeepsOrder | hexchat-hexchat-a67eafc/src/common/plugin.c:731-763 | command hooks, and print hooks of both kinds together, stay ordered by priority, the newest first among equals |
| Hooks.UnhookOrdered | hexchat-hexchat-a67eafc/src/common/plugin.c:950-953 | unhooking keeps that order for the others |
| Hooks.HistoryOrdered | hexchat-hexchat-a67eafc/src/common/plugin.c:729-763 | after any sequence of additions, unhookings and purges, command hooks, and print hooks of both kinds together, stand in order |
| Hooks.ServerOrderFails | hexchat-hexchat-a67eafc/src/common/plugin.c:742-745 | two server hooks that end up in the wrong order |
| Hooks.ServerOrderIff | hexchat-hexchat-a67eafc/src/common/plugin.c:742-763 | an insertion keeps server hooks in order exactly when no SERVER_ATTRS hook is passed over unseen and no PRINT_ATTRS hook stops the search too early |
| Hooks.HookTable.HookFind | hexchat-hexchat-a67eafc/src/common/plugin.c:515-540 | the first node from the given one on whose type is asked for and whose name is that of the event up to case, or RAW LINE for a server event, or none; no name of a deleted hook is read |
| Hooks.HookTable.HookRun | hexchat-hexchat-a67eafc/src/common/plugin.c:544-608 | while callbacks add and unhook at will: the hooks called are those that matched when reached, nothing from the start is passed over up to the hook that stops the event if one does, and the answer is 1 exactly when some called hook ate it; no deleted hook is left |
| Hooks.CalledOnceInOrder | hexchat-hexchat-a67eafc/src/common/plugin.c:554-593 | no hook is called twice in one event, and the calls go down the list |
| Hooks.SurvivorsCalled | hexchat-hexchat-a67eafc/src/common/plugin.c:554-593 | a matching hook that was there at the start and is still hooked at the end was called, unless it stands behind a hook that stopped the event |
| Hooks.Heard | hexchat-hexchat-a67eafc/src/common/plugin.c:515-540 | so a raw line hook is called for every server event, and any hook for the events of its name |
| Hooks.OnlyHeard | hexchat-hexchat-a67eafc/src/common/plugin.c:515-540 | and no hook is called for an event of another name, except raw line hooks for server events |
| CStrings.SameNameIff | hexchat-hexchat-a67eafc/src/common/plugin.c:526-529 | names are compared letter for letter, up to the case of ASCII letters |
| Hooks.HookTable.Sweep | hexchat-hexchat-a67eafc/src/common/plugin.c:595-607 | exactly the deleted hooks are taken out, in place |
| Hooks.LiveSound | hexchat-hexchat-a67eafc/src/common/plugin.c:595-607 | what is left is every live hook and nothing else |
| Fish.TablesInverse | hexchat-hexchat-a67eafc/plugins/fishlim/fish.c:37-55 | the tables are inverses, except that every byte from 128 on reads like the dot |
| Fish.DigitIs | hexchat-hexchat-a67eafc/plugins/fishlim/fish.c:37 | the d-th digit is written as the d-th character of the alphabet |
| Fish.BlockIs | hexchat-hexchat-a67eafc/plugins/fishlim/fish.c:82-89 | a block is two numbers of four bytes, the first the most significant |
| Fish.BlockRoundTrip | hexchat-hexchat-a67eafc/plugins/fishlim/fish.c:57-62 | a block gives back the eight bytes it was made of, zeros for those after the end |
| Fish.CharsRoundTrip | hexchat-hexchat-a67eafc/plugins/fishlim/fish.c:95-106 | twelve characters give back their block |
| Fish.RoundTrip | hexchat-hexchat-a67eafc/plugins/fishlim/fish.c:64-156 | for every permutation with its inverse and every NUL-free message, decrypting the encryption is the message as a C string |
| Fish.DecryptEncrypt | hexchat-hexchat-a67eafc/plugins/fishlim/fish.c:116-156 | the bytes that come back are the message filled up with zeros to whole blocks |
| Fish.EncryptIs | hexchat-hexchat-a67eafc/plugins/fishlim/fish.c:80-110 | the same of the text as a function of the message |
| Fish.EncryptLength | hexchat-hexchat-a67eafc/plugins/fishlim/fish.c:78 | the text has twelve characters for every eight bytes begun |
| Fish.CanonicalIff | hexchat-hexchat-a67eafc/plugins/fishlim/fish.c:133-143 | a group is what its block is written as exactly when it is ASCII and its sixth and twelfth digits are below four |
| Fish.FishEncrypt | hexchat-hexchat-a67eafc/plugins/fishlim/fish.c:64-113 | the buffer is exactly long enough; character 12 n + j is the digit to the base of 64 of the n-th enciphered block, right half first, least significant digit first; then a NUL; none for an empty message |
| Fish.ReadBlock | hexchat-hexchat-a67eafc/plugins/fishlim/fish.c:82-89 | reads the block of the next bytes and nothing behind the NUL |
| Fish.EmitBlock | hexchat-hexchat-a67eafc/plugins/fishlim/fish.c:94-106 | writes the twelve characters behind what is there |
| Fish.FishDecrypt | hexchat-hexchat-a67eafc/plugins/fishlim/fish.c:116-156 | never leaves its buffer, and ends with the decoding up to the first broken group and a NUL |
| Fish.ReadDigits | hexchat-hexchat-a67eafc/plugins/fishlim/fish.c:130-143 | succeeds exactly on twelve characters of the alphabet and gives their block |
| Dh1080.AppendedIff | hexchat-hexchat-a67eafc/plugins/fishlim/dh1080.c:112-113 | the length tells whether an 'A' was appended, so it is never confused with data |
| Dh1080.RoundTripIff | hexchat-hexchat-a67eafc/plugins/fishlim/dh1080.c:106-143 | every byte string comes back from its encoding, except the empty one |
| Dh1080.Base64RoundTrip | hexchat-hexchat-a67eafc/plugins/fishlim/dh1080.c:118-126 | decoding inverts encoding for base64 with pads, except that the empty text is not decoded |
| Dh1080.CodeIs | hexchat-hexchat-a67eafc/plugins/fishlim/dh1080.c:126 | the d-th digit is written as the d-th character of the base64 alphabet |
| Dh1080.SextetIs | hexchat-hexchat-a67eafc/plugins/fishlim/dh1080.c:126 | the four digits of three bytes are those of the number they make |
| Dh1080.ValueIs | hexchat-hexchat-a67eafc/plugins/fishlim/dh1080.c:118 | only characters of the alphabet have a value, and it is the digit they stand for |
| Dh1080.EncodeB64 | hexchat-hexchat-a67eafc/plugins/fishlim/dh1080.c:123-143 | cutting at the first '=' removes exactly the pads; without one an 'A' is appended |
| Dh1080.DecodeB64 | hexchat-hexchat-a67eafc/plugins/fishlim/dh1080.c:106-121 | for every text: an appended A is dropped, the pads are put back, and glib decodes the groups of the characters of its alphabet |
| CfgText.CfgGetStr | hexchat-hexchat-a67eafc/src/common/cfgfiles.c:177-213 | the value of the first line with the name, copied whole characters at a time, and the end of its line; the text patched in between is as before |
| CfgText.FindLine | hexchat-hexchat-a67eafc/src/common/cfgfiles.c:184-212 | the first line that starts with the name and a space, up to case |
| CfgText.GetFirst | hexchat-hexchat-a67eafc/src/common/cfgfiles.c:184-212 | in any text, the first line of all that starts with the name gives the value, and nothing is found exactly when there is none |
| CfgText.HandWritten | hexchat-hexchat-a67eafc/src/common/cfgfiles.c:188-203 | the value is what follows any number of spaces, one equals sign or none, and any number of spaces, up to the end of the line |
| CfgText.StartsWithIff | hexchat-hexchat-a67eafc/src/common/cfgfiles.c:182-186 | a line is taken for a name exactly when its own name is that one up to case, prefixes included |
| CfgText.OtherLine | hexchat-hexchat-a67eafc/src/common/cfgfiles.c:205-211 | a line of another name is passed over |
| CfgText.OwnLine | hexchat-hexchat-a67eafc/src/common/cfgfiles.c:186-203 | a printed line gives its value without the spaces it starts with |
| CfgText.IntRoundTrip | hexchat-hexchat-a67eafc/src/common/cfgfiles.c:238-251 | every number is read as it was printed |
| CfgText.DecimalMeans | hexchat-hexchat-a67eafc/src/common/cfgfiles.c:248 | a number is written in decimal digits, as many as it takes |
| CfgText.SafeCopyFits | hexchat-hexchat-a67eafc/src/common/util.c:1275-1307 | UTF-8 text with room for its NUL is copied whole |
| CfgText.SafeCopyIff | hexchat-hexchat-a67eafc/src/common/util.c:1275-1307 | any string is copied as it is exactly when it and its NUL fit, counting its last character as long as its first byte says |
| CfgText.SafeCopyLongest | hexchat-hexchat-a67eafc/src/common/util.c:1275-1307 | what does not fit is cut to whole characters, and the next one would not have fitted |
| Preferences.Config.SaveConfig | hexchat-hexchat-a67eafc/src/common/cfgfiles.c:1005-1077 | the file is the version line and one line for each variable, in order |
| Preferences.Config.LoadConfig | hexchat-hexchat-a67eafc/src/common/cfgfiles.c:954-1003 | every variable takes its value from the text or keeps its default, then the window floors and the user name are seen to |
| Preferences.LoadedFits | hexchat-hexchat-a67eafc/src/common/cfgfiles.c:971-976 | whatever the file says, no string is longer than its field allows |
| Preferences.Config.CheckPrefs | hexchat-hexchat-a67eafc/src/common/cfgfiles.c:993-1000 | the floors 138 and 106, and the user name up to its first space |
| Preferences.FoundIff | hexchat-hexchat-a67eafc/src/common/cfgfiles.c:177-225 | a saved file gives a variable exactly when the line before its own fits the buffer, and then, if its own fits, the text written for it |
| Preferences.RoundTrip | hexchat-hexchat-a67eafc/src/common/cfgfiles.c:954-1077 | loading what was saved gives every preference back, with -1 as 1 and without leading spaces, then checked |
| Preferences.RestoredIff | hexchat-hexchat-a67eafc/src/common/cfgfiles.c:954-1077 | nothing changes exactly when no number is -1, no string begins with a space, the user name has none and the window is large enough |
| Preferences.AlwaysFitsIff | hexchat-hexchat-a67eafc/src/common/cfgfiles.c:215-251 | a line fits its buffer for every value exactly when name and field have together at most 508 bytes, for a number when the name has at most 384 |
| Preferences.FontSwallowsNext | hexchat-hexchat-a67eafc/src/common/hexchat.h:309 | after a font list of 499 bytes or more the next variable is not found and keeps its default |
| Preferences.SmallWindow | hexchat-hexchat-a67eafc/src/common/cfgfiles.c:238-251 | a concrete table and preferences: the text of the file, and what it is loaded as, with both window floors and the user name cut at its space |
| Ignore.RoundTrip | hexchat-hexchat-a67eafc/src/common/ignore.c:280-331 | loading a saved list gives it backwards, without the NOSAVE entries and leading spaces |
| Ignore.SameAnswer | hexchat-hexchat-a67eafc/src/common/ignore.c:201-254 | after a restart the saved entries ignore the same hosts |
| Ignore.ShareIff | hexchat-hexchat-a67eafc/src/common/ignore.c:211-226 | two sets of flags meet exactly when some bit is set in both |
| Ignore.FlagIff | hexchat-hexchat-a67eafc/src/common/ignore.h:31-38 | which bit each flag is |
| Ignore.EntryTextIs | hexchat-hexchat-a67eafc/src/common/ignore.c:323-324 | an entry as it is written |
| Ignore.KeptIff | hexchat-hexchat-a67eafc/src/common/ignore.c:321-326 | the entries saved are those without NOSAVE |
| Ignore.CountedMeans | hexchat-hexchat-a67eafc/src/common/ignore.c:230-240 | once in total and once for each kind |
| Ignore.IgnoreList.IgnoreCheck | hexchat-hexchat-a67eafc/src/common/ignore.c:201-254 | ignored exactly when some entry has a flag in common with the message and matches the host, and no such entry is an unignore entry; counted exactly then |
| Ignore.IgnoreList.IgnoreSave | hexchat-hexchat-a67eafc/src/common/ignore.c:310-331 | the file is the entries that may be saved, in order |
| Ignore.IgnoreList.ReadNextEntry | hexchat-hexchat-a67eafc/src/common/ignore.c:256-277 | one entry from the cursor on and the cursor behind it; none when mask or type is missing |
| Ignore.IgnoreList.IgnoreLoad | hexchat-hexchat-a67eafc/src/common/ignore.c:279-308 | the entries of the file are put in front of the list one by one |
| History.Ring.HistoryAdd | hexchat-hexchat-a67eafc/src/common/history.c:24-34 | the ring holds the list with the line added, and the cursor is at the bottom |
| History.Ring.HistoryDown | hexchat-hexchat-a67eafc/src/common/history.c:50-85 | it shows and moves as the unbounded list does |
| History.Ring.HistoryUp | hexchat-hexchat-a67eafc/src/common/history.c:87-121 | so does going up, drafts included; only lines that are there are compared |
| History.RunKeeps | hexchat-hexchat-a67eafc/src/common/history.c:24-121 | over every run the cursor stays on a line that exists, and no line of the list is lost |
| History.DownUndoesUp | hexchat-hexchat-a67eafc/src/common/history.c:50-121 | down undoes an up that stored nothing, and shows the line that was left |
| History.UpsShowVisible | hexchat-hexchat-a67eafc/src/common/history.c:87-121 | going up from the bottom shows the last 99 lines, newest first, and then nothing |
| History.DraftReachableIff | hexchat-hexchat-a67eafc/src/common/history.c:106-118 | a stored draft is shown again by going down exactly when it was not made 98 lines back |
| History.DraftKeptIff | hexchat-hexchat-a67eafc/src/common/history.c:106-116 | what was typed is lost exactly when it was typed at the bottom and equals the line 100 back and none later |
| Activity.Queue.LastactUpdate | hexchat-hexchat-a67eafc/src/common/hexchat.c:122-150 | the session is first in the list its state asks for, each of the five exactly when, and in no other; the lists stay ordered by latest update |
| Activity.Queue.LastactGetfirst | hexchat-hexchat-a67eafc/src/common/hexchat.c:160-189 | takes out the session that passes, of the most important class and of those the latest; none exactly when none that passes is queued |
| Activity.Queue.SessionFree | hexchat-hexchat-a67eafc/src/common/hexchat.c:674-676 | a freed session is in no list |
| Activity.FirstIsBest | hexchat-hexchat-a67eafc/src/common/hexchat.c:166-180 | the first that passes, list by list, is the most important and the latest of its class |

## Left out

- Modes: numeric 324 also copies the mode string of the server into current_modes; only its parsing is modelled.
- Modes.FindArgument: offsets are computed on the string at hand; the string allocation of GString is not modelled.
- ModeParse.HandleMode: what handle_single_mode does with a change (user prefixes, events) is not modelled, only the sequence of its calls.
- Tokenizer.ProcessDataInit: what the code copies and reads behind a line that it has left is not modelled, only that it leaves it.
- TokenizerRoundTrip.LineRoundTrip: an empty word cannot be printed, because runs of spaces separate words.
- SplitText.Say: an endless loop is reported as stuck instead of being run; dcc_write_chat and the echo on screen are left out.
- SplitText.NegativeRoomUnsplit: texts longer than the wrapped room (about 4 GB) are left out.
- DccTransfer.TransferSafe: acks arrive as whole 4-byte groups (dcc_read_ack always reads to the start of its buffer), files are below 4 GB and not empty, and write() writes all or fails.
- DccTransfer.Dcc.DccSendData: removing and adding the socket watches is left out; an event may arrive whenever the transfer is active.
- DccProgress.FinishesIff: that the acks and reads do arrive is left to the network; a history with lost acks, throttling or failures is not one in which nothing went wrong.
- DccRates.DccList.DccCalcCps: the measured rate is any integer; its floating-point formula and the clock are not modelled, and the totals do not overflow.
- DccRates.DccList.DccConnect: required to be queued, or a chat, as at all its call sites.
- Socks5.Handshake.WriteProxy: a send() that returns 0 is like one that takes nothing and would block.
- Socks5.ConsumedExactly: for an address type that RFC 1928 does not know, the code takes the first four bytes as the whole reply.
- Hooks.HookTable.Callback: a callback does not emit an event of its own, and the callbacks of one event add finitely many hooks; without that bound the loop of the source need not end.
- Fish.RoundTrip: Blowfish and the key set-up are any permutation with its inverse.
- Dh1080.DecodeB64: GLib's base64 is modelled as it is documented and implemented there, the refusal of the empty text included; key generation is left out.
- CfgText.SafeCopyIff: safe_strcpy of text that ends inside a multi-byte character also copies what lies behind the NUL; only the string it leaves is modelled.
- Preferences.Config.SaveConfig: failures of the file system, the temporary file and the after_update callbacks are left out.
- Preferences.RoundTrip: strings are UTF-8 without line breaks, and lines fit the print buffers (for those that do not, see Preferences.FoundIff).
- Preferences.FoundIff: what the variable of a line that does not fit is read as is not stated.
- Ignore.RoundTrip: masks are UTF-8 without line breaks, entries fit the buffer, and the type is below 2^31.
- Ignore.IgnoreList.IgnoreCheck: wildcard matching is any predicate on mask and host.
- Activity.Queue.LastactGetfirst: the filter depends on the session only.
- The HTTP, SOCKS4 and wingate proxies, DNS, passive offers and the listening socket of DCC.
- The user list, the server queue, text events, logging, scripting bindings, the GTK front end and the other plugins.
- ignore_add, ignore_del, list editing and the colour preferences, which would add only simple members.
