# NebulaChat core in Dafny

This project models three parts of NebulaChat, a peer-to-peer chat whose nodes meet over Tor onion services:

- **The Bonk frame codec** (`nebula-common/src/net/bonk/message.rs`). Peers exchange length-prefixed frames: a 4-byte big-endian `u32` length followed by that many payload bytes. The module also holds the Bonk message types and the 64-byte `Signature` with its byte-string serialisation.
- **The chat pane of the terminal client** (`nebula-cli/src/app/panes/center.rs`). This covers how a history line splits into a username and content, how many rows a message takes, and which of the newest messages fit the history area. It also covers where each fitting message is placed, the width of the input box and the cursor column.
- **The terminal client's application object** (`nebula-cli/src/app/mod.rs`). This covers the key-handling state machine over the modes Normal, Insert and Command, and the startup status that `draw` latches from a one-shot channel. It also covers the screen `draw` chooses and the run loop, which alternates drawing and handling one terminal event.

Files:

| file | module | contents |
|---|---|---|
| `wrappers.dfy` | `Wrappers` | `Option` and `Result` |
| `bonk_message.dfy` | `BonkMessage` | `u8`, fixed-size byte arrays, `Message` and its records, `BonkError`, `Signature` (de)serialisation |
| `bonk_frame.dfy` | `BonkFrame` | big-endian header, frame encoding and decoding, the `Reader` and `Writer` streams, `ReadFramed`, `WriteFramed`, and `write_framed` as written with short writes |
| `input_mode.dfy` | `InputModes` | `InputMode` |
| `center_pane.dfy` | `CenterPane` | trimming, splitting, row counts, message selection and layout, input-box arithmetic |
| `app.dfy` | `NebulaApp` | keys and events, the one-shot status channel, `AppState` with its specification functions and lemmas, and the class `App` |

Stateful code is written as classes whose methods update fields in place:

- In `BonkFrame`: the reader, with its read position, and the writer, with its output buffer.
- In `NebulaApp`: the application object.

Each method is proved against a pure function. The function's properties are proved as lemmas. `Writer.failing` fixes in advance which write calls fail. The terminal events, and what the networking task does to the startup channel before each draw, are inputs of the model.

## Model

| member | source | states |
|---|---|---|
| BonkMessage.SerializeSignature | nebula-common/src/net/bonk/message.rs:46-53 | a signature is serialised as a byte string of exactly its 64 bytes, in order |
| BonkMessage.DeserializeSignature | nebula-common/src/net/bonk/message.rs:55-71 | deserialisation succeeds exactly when the byte string has 64 bytes and then yields those bytes; any other length is refused with `invalid_length` carrying the actual length |
| BonkMessage.SignatureRoundTrip | nebula-common/src/net/bonk/message.rs:46-71 | deserialising the serialisation of any signature gives the same signature back |
| BonkFrame.FromBigEndian | nebula-common/src/net/bonk/message.rs:84 | `u32::from_be_bytes` on the 4 header bytes gives a value below 2^32 |
| BonkFrame.FourByteValue | nebula-common/src/net/bonk/message.rs:84 | the header value is big-endian (first byte most significant) and below 2^32 |
| BonkFrame.U32ToBeBytes | nebula-common/src/net/bonk/message.rs:99-100 | the 4 header bytes of a `u32` length decode back to that length |
| BonkFrame.HeaderOfValue | nebula-common/src/net/bonk/message.rs:84-100 | every 4-byte header is the encoding of its own value, so header encoding and decoding are mutually inverse |
| BonkFrame.EncodeFrame | nebula-common/src/net/bonk/message.rs:95-113 | a frame is 4 header bytes holding `data.len() as u32` (the length modulo 2^32), followed by the data unchanged |
| BonkFrame.DecodeFrame | nebula-common/src/net/bonk/message.rs:75-93 | reading succeeds exactly when a whole header and as many bytes as it declares are available; the payload is the bytes after the header and the frame takes 4 + length bytes; otherwise `MalformedFrame` |
| BonkFrame.FrameRoundTrip | nebula-common/src/net/bonk/message.rs:75-113 | a frame written for a payload shorter than 2^32 bytes reads back as that payload, taking exactly its own bytes, whatever follows it |
| BonkFrame.OversizedFrameTruncates | nebula-common/src/net/bonk/message.rs:99 | a payload of 2^32 bytes or more gets a wrapped header, so only its first `len mod 2^32` bytes read back |
| BonkFrame.FramesInSequence | nebula-common/src/net/bonk/message.rs:75-113 | two frames written back to back read back one after the other |
| BonkFrame.Reader.ReadExact | nebula-common/src/net/bonk/message.rs:78-90 | `read_exact` fills the buffer with the next bytes and advances past them exactly when enough bytes remain; otherwise it fails and the stream is exhausted |
| BonkFrame.Writer.Write | nebula-common/src/net/bonk/message.rs:102-110 | `write` either fails, writing nothing, or appends a prefix of its buffer (as much as the stream accepts) and returns that prefix's length |
| BonkFrame.Writer.WriteAll | nebula-common/src/net/bonk/message.rs:102-110 | `write_all` either appends all of its buffer, or fails after a proper prefix of it is out; with an empty buffer it cannot fail |
| BonkFrame.ReadFramed | nebula-common/src/net/bonk/message.rs:75-93 | `read_framed` returns the payload of the first frame in the stream and leaves the stream just after it, or `MalformedFrame` with the stream exhausted, exactly as `DecodeFrame` says |
| BonkFrame.WriteFramed | nebula-common/src/net/bonk/message.rs:95-113 | with `write_all`: both writes succeed and the stream receives exactly the frame; or the header write fails after a proper prefix of the header; or the payload write fails after the whole header and a proper prefix of the payload; the last two return `WriterFailure` |
| BonkFrame.WriteFramedAsWritten | nebula-common/src/net/bonk/message.rs:95-113 | as written, `write_framed` returns `Ok(())` whenever neither `write` fails, although the stream received only the accepted prefixes of the header and the payload; a failing header `write` returns `WriterFailure` at once, with nothing written and the payload never attempted; a failing payload `write` returns `WriterFailure` with the accepted part of the header on the stream |
| BonkFrame.ShortWriteBreaksFrame | nebula-common/src/net/bonk/message.rs:102-110 | after a short `write` the peer receives fewer bytes than the frame, and reading them never yields the payload |
| BonkFrame.ShortHeaderWriteExample | nebula-common/src/net/bonk/message.rs:102-110 | payload `[7]` with two header bytes accepted puts `[0, 0, 7]` on the stream: it is a malformed frame, and the next frame's header is misread as 1792 |
| BonkFrame.WriteThenRead | nebula-common/src/net/bonk/message.rs:75-113 | a payload written by `write_framed` and read back by `read_framed` comes back intact, and the bytes after it are left for the next read |
| CenterPane.IsWhitespace | nebula-cli/src/app/panes/center.rs:70 | the characters `trim` removes are the Unicode White_Space ones; the colon is not among them, so trimming never removes the colon that ends a username |
| CenterPane.SkipWhitespace | nebula-cli/src/app/panes/center.rs:70 | `trim_start` skips exactly the leading whitespace: everything skipped is whitespace and the next character, if any, is not |
| CenterPane.BackOverWhitespace | nebula-cli/src/app/panes/center.rs:70 | `trim_end` drops exactly the trailing whitespace: everything dropped is whitespace and the last character kept, if any, is not |
| CenterPane.TrimCut | nebula-cli/src/app/panes/center.rs:70 | `trim` keeps a sub-slice of the slice it is applied to |
| CenterPane.TrimCutIsPadding | nebula-cli/src/app/panes/center.rs:70 | `trim` removes only whitespace, from both ends, and the trimmed text neither begins nor ends with whitespace |
| CenterPane.TrimCutKeepsLast | nebula-cli/src/app/panes/center.rs:69-70 | trimming a non-empty slice that ends in a character other than whitespace keeps that end |
| CenterPane.FindFrom | nebula-cli/src/app/panes/center.rs:68 | `find` returns the first position holding the character, or none when the character does not occur |
| CenterPane.SplitWithoutColon | nebula-cli/src/app/panes/center.rs:68-73 | a message without a colon gets the username `shimori:` and is shown whole and untrimmed |
| CenterPane.SplitMessage | nebula-cli/src/app/panes/center.rs:68-73 | how a history line splits into username and content; its properties are the four lemmas below |
| CenterPane.SplitUsername | nebula-cli/src/app/panes/center.rs:68-70 | with a colon, the username runs from the first character that is not whitespace up to and including the first colon; it holds no other colon |
| CenterPane.SplitContent | nebula-cli/src/app/panes/center.rs:68-70 | with a colon, the content is the rest of the message after the first colon, with whitespace trimmed at both ends |
| CenterPane.SplitLosesOnlyWhitespace | nebula-cli/src/app/panes/center.rs:68-70 | with a colon, the message is exactly leading whitespace, the username, whitespace, the content and trailing whitespace, in that order: splitting drops nothing but whitespace |
| CenterPane.Utf8Len | nebula-cli/src/app/panes/center.rs:78 | `str::len` counts UTF-8 bytes: between one and four per character |
| CenterPane.ContentHeight | nebula-cli/src/app/panes/center.rs:77-79 | a message's content height is at least one row and fits a `u16` |
| CenterPane.ContentHeightIsCeiling | nebula-cli/src/app/panes/center.rs:77-79 | while length + width fits a `u16`, the content height is the least number of rows that holds every byte of the content, or one row for empty content |
| CenterPane.ContentHeightSaturates | nebula-cli/src/app/panes/center.rs:78-79 | when the length fits a `u16` but adding `width - 1` saturates, the height is 65535 over the width: it may fall one row short of the content (65535 bytes at width 2 get 32767 rows) but never more |
| CenterPane.WrappedLengthGetsOneRow | nebula-cli/src/app/panes/center.rs:78 | a content of exactly 2^16 bytes wraps to length 0 in the `as u16` cast and gets a single row |
| CenterPane.LinesNeeded | nebula-cli/src/app/panes/center.rs:81-82 | a message takes its content rows plus a username row and a separator row, so at least three |
| CenterPane.StackHeight | nebula-cli/src/app/panes/center.rs:81-87 | stacked messages take at least three rows each |
| CenterPane.SplitSuffix | nebula-cli/src/app/panes/center.rs:66-73 | the last `k` messages, split, in chronological order |
| CenterPane.SuffixHeightGrows | nebula-cli/src/app/panes/center.rs:66-91 | every further older message the history takes adds at least three rows |
| CenterPane.SelectionIsDetermined | nebula-cli/src/app/panes/center.rs:62-92 | only one number of newest messages fits the height while one more would not, so the greedy selection is fully determined |
| CenterPane.SelectVisible | nebula-cli/src/app/panes/center.rs:59-95 | the selection is a suffix of the history in chronological order, fits the available height, and is maximal: adding the next older message would overflow |
| CenterPane.LayOutMessages | nebula-cli/src/app/panes/center.rs:97-139 | each drawn message starts at the rows taken by those before it; drawing stops only at the bottom edge; messages that fit are all drawn |
| CenterPane.PlacedAreSuffix | nebula-cli/src/app/panes/center.rs:66-99 | the drawn messages are the newest of the history, split, in chronological order |
| CenterPane.PlacedAreStacked | nebula-cli/src/app/panes/center.rs:98-139 | messages drawn at the running row totals lie one under another from row 0 without gaps and end inside the area |
| CenterPane.RenderMessageHistory | nebula-cli/src/app/panes/center.rs:43-143 | the drawn messages are the newest that fit, split, oldest first, stacked from row 0 without gaps; each lies wholly inside the inner area (so `current_y` never overflows its `u16`); the next older message would not fit |
| CenterPane.InputWidth | nebula-cli/src/app/panes/center.rs:33 | the input text width is the area width less three, and zero for areas narrower than three |
| CenterPane.CursorColumn | nebula-cli/src/app/panes/center.rs:34-38 | a cursor is placed only in insert mode, one column past the border plus the cursor's distance from the scroll offset, and at the first column when the cursor is scrolled off to the left |
| NebulaApp.IsQuitChord | nebula-cli/src/app/mod.rs:145 | the quit chord is Control alone with `q` or `Q`, so it never collides with the `i`, `I` and `c` arms |
| NebulaApp.TryRecv | nebula-cli/src/app/mod.rs:76-92 | `try_recv` yields a waiting value and closes the channel; it reports `Empty` exactly while nothing was sent, and `Closed` after that |
| NebulaApp.TryRecvOnce | nebula-cli/src/app/mod.rs:76-92 | after the startup value was taken, polling again reports the channel closed |
| NebulaApp.Initial | nebula-cli/src/app/mod.rs:41-63 | a new app is in normal mode with an empty input and history, no node address, and no startup status |
| NebulaApp.DropLast | nebula-cli/src/app/mod.rs:166-172 | deleting the previous character at the end of the input removes exactly its last character, and does nothing to an empty input |
| NebulaApp.OnKey | nebula-cli/src/app/mod.rs:143-199 | a key never touches the startup status, the running service or the node address |
| NebulaApp.OnKeyExit | nebula-cli/src/app/mod.rs:145-147 | the app is asked to exit exactly by Control (and no other modifier) with `q` or `Q` in normal mode, and stays so |
| NebulaApp.OnKeyModeTransitions | nebula-cli/src/app/mod.rs:143-197 | the mode changes exactly along Normal -`i`/`I`-> Insert, Normal -`c`-> Command and Insert/Command -Esc-> Normal, with those targets; `i`/`I` and Esc in insert mode move the pane's mode along, `c` and Esc in command mode leave it alone, and no other key changes the pane's mode |
| NebulaApp.OnKeyUnmatched | nebula-cli/src/app/mod.rs:143-197 | a key no arm acts on (in insert mode: any other key, or Enter with an empty input) leaves the whole state unchanged |
| NebulaApp.OnKeyHandledChanges | nebula-cli/src/app/mod.rs:143-197 | conversely, a key some arm acts on changes the state, except Backspace on an empty input and anything after exit was requested |
| NebulaApp.OnKeyQuit | nebula-cli/src/app/mod.rs:145-147 | the quit chord in normal mode sets the exit flag and changes nothing else |
| NebulaApp.OnKeyTypes | nebula-cli/src/app/mod.rs:159-165 | in insert mode a character key, with any modifiers, appends its character to the input and changes nothing else |
| NebulaApp.OnKeyBackspace | nebula-cli/src/app/mod.rs:166-172 | in insert mode Backspace removes the last character of the input, does nothing to an empty input, and changes nothing else |
| NebulaApp.OnKeyKeepsModesAgreeing | nebula-cli/src/app/mod.rs:148-196 | the pane's mode stays `Insert` exactly when the app is in insert mode, and `Normal` otherwise, including in command mode |
| NebulaApp.OnKeyHistory | nebula-cli/src/app/mod.rs:173-193 | the history grows, by the current input, only on Enter in insert mode with a non-empty input, which is then cleared |
| NebulaApp.OnKeyOutsideInsert | nebula-cli/src/app/mod.rs:143-199 | outside insert mode neither the input nor the history changes |
| NebulaApp.BackspaceUndoesTyping | nebula-cli/src/app/mod.rs:159-172 | in insert mode, Backspace right after typing a character restores the state |
| NebulaApp.TypingAppends | nebula-cli/src/app/mod.rs:159-165 | in insert mode, typing a text appends exactly that text to the input and changes nothing else |
| NebulaApp.SendMessage | nebula-cli/src/app/mod.rs:148-193 | from normal mode with an empty input, `i`, a non-empty text and Enter append exactly that text to the history and leave the input empty |
| NebulaApp.HistoryStaysNonEmpty | nebula-cli/src/app/mod.rs:173-190 | no key sequence ever puts an empty message into the history |
| NebulaApp.ReplayKeepsModesAgreeing | nebula-cli/src/app/mod.rs:143-199 | any key sequence keeps the pane's mode in step with the app's |
| NebulaApp.HistoryOnlyGrows | nebula-cli/src/app/mod.rs:184-190 | later keys never remove or rewrite a message: the old history stays a prefix of the new one |
| NebulaApp.PollStatus | nebula-cli/src/app/mod.rs:75-93 | polling the startup channel never changes the exit flag, the mode, the input or the history |
| NebulaApp.ScreenOf | nebula-cli/src/app/mod.rs:95-125 | the failure screen is shown exactly when startup failed, the main layout exactly when startup succeeded and did not fail, else the starting screen |
| NebulaApp.PollOutcome | nebula-cli/src/app/mod.rs:75-93 | the first report sets the started flag exactly for a running service (with its address and service stored), sets the failed flag exactly for a failure or a closed channel, never both, and changes nothing while the channel is empty |
| NebulaApp.PollLatched | nebula-cli/src/app/mod.rs:75 | once startup was reported either way, drawing no longer polls or changes anything |
| NebulaApp.HandleEvent | nebula-cli/src/app/mod.rs:128-141 | only key presses reach the key handler; releases, repeats, other events, stream errors, the stream's end and the timer leave the state alone |
| NebulaApp.SenderActs | nebula-common/src/net/relay/mod.rs:28-37 | the one-shot sender changes the channel only while nothing has been sent on it; it stays empty only while the sender waits |
| NebulaApp.Round | nebula-cli/src/app/mod.rs:65-72 | a round (sender step, `draw`, one terminal event) never clears either startup flag or the exit flag |
| NebulaApp.Session | nebula-cli/src/app/mod.rs:65-72 | neither a startup flag nor the exit flag, once set, is cleared over any number of rounds |
| NebulaApp.RoundDuringStartup | nebula-cli/src/app/mod.rs:65-126 | before startup was reported, a round shows the starting screen while the sender waits, the main screen with the service's address once it reports a running service, and the failure screen once it reports failure or drops the sender |
| NebulaApp.MainScreenAfterReport | nebula-cli/src/app/mod.rs:41-126 | from `App::new`, a running service reported before the first draw puts its address on the main screen |
| NebulaApp.RoundKeepsCoherent | nebula-cli/src/app/mod.rs:65-72 | a round of sender step, drawing and event handling never sets both startup flags, keeps the running service present exactly when started, and keeps the modes in step |
| NebulaApp.SessionKeepsCoherent | nebula-cli/src/app/mod.rs:65-72 | over any number of rounds the two startup flags are never both set, the running service is present exactly when started, and the modes stay in step |
| NebulaApp.ScreenIsFinal | nebula-cli/src/app/mod.rs:65-126 | once the main screen or the failure screen shows, it stays, and so does the node address, for the rest of the session, whatever the sender does |
| NebulaApp.App.constructor | nebula-cli/src/app/mod.rs:41-63 | `App::new` starts in the initial state |
| NebulaApp.App.OnKeyEvent | nebula-cli/src/app/mod.rs:143-199 | `on_key_event` updates the fields exactly as `OnKey` specifies |
| NebulaApp.App.Draw | nebula-cli/src/app/mod.rs:74-126 | `draw` latches the startup status as `PollStatus` specifies and shows the screen `ScreenOf` gives for the new flags |
| NebulaApp.App.TakeSenderStep | nebula-common/src/net/relay/mod.rs:28-37 | the networking task's step changes only the channel, as `SenderActs` specifies |
| NebulaApp.App.HandleCrosstermEvents | nebula-cli/src/app/mod.rs:128-141 | handling one terminal event updates the fields as `HandleEvent` specifies |
| NebulaApp.App.Run | nebula-cli/src/app/mod.rs:65-72 | `run` performs one round per input (the sender's step, `draw`, one terminal event) while the app is not asked to exit; it stops right after the first round that asks it to exit, or when the inputs run out; the final state is the session over the rounds that ran, and it is coherent when the starting state was |

## Left out

- Message serialisation: `Message` and its records are modelled as datatypes only. Their encoding into frame payloads with the CBOR encoder is not part of this model, and neither is `BonkError::Serialization`'s payload.
- Maximum frame size: the code puts no upper bound on the declared length and allocates a buffer of that size. The model follows it, so `ReadFramed` accepts any length below 2^32.
- Memory: allocating a payload buffer of up to 4 GiB cannot fail in the model.
- BonkFrame.Reader.ReadExact: every failure of `read_exact` is modelled as the stream ending early. Other I/O errors are not modelled. After a failure the reader is at the end of its input, and the buffer's contents are left unspecified, as `read_exact` documents.
- BonkFrame.WriteFramed: specified with `write_all` (`WriteAll`), which is the corrected behaviour; the code's `write` can accept a prefix only (see Findings and `WriteFramedAsWritten`).
- BonkMessage.DeserializeSignature: starts from the byte vector already decoded. A failure of the deserializer to decode a byte vector at all (the `?` on `<Vec<u8>>::deserialize`) is not modelled.
- BonkFrame.Writer.WriteAll: a failing `write_all` is one failing call whose bytes out before the error are a parameter; the individual `write` calls inside it are not counted in `attempts`.
- Asynchrony: `async` and the transports behind `AsyncReadExt`/`AsyncWriteExt` are not modelled; streams are finite byte sequences and in-memory output buffers.
- CenterPane.SelectVisible, CenterPane.RenderMessageHistory: require an inner width of at least one whenever there are messages. For a zero width the code computes `inner_area.width - 1` and divides by the width, so the process panics.
- Rendering: the ratatui layout is not modelled. This covers the split into a history area and an input area of at most three rows, the bordered block and its inner area, styles, the paragraphs and the node-address title. The history is given the inner area's height and width directly.
- CenterPane.CursorColumn: the `x as u16` cast of the column and the terminal's cursor call are not modelled. `visual_cursor` and `visual_scroll` come from `tui_input` and are parameters.
- `tui_input` is not part of this model. The input is its text. Typing a character appends it, Backspace removes the last character and `reset` empties it. This holds because the client never moves the cursor, so the cursor stays at the end of the text.
- NebulaApp.App.Draw: returns which screen is shown. When the main screen shows, the call into the chat pane's `render` is not repeated; the pane's logic is modelled in `CenterPane`.
- The terminal and the event stream: `terminal.draw` errors and the `tokio::select!` between the event stream and the 100 ms sleep are not modelled. The event that one round sees, including `Timeout`, is part of the round's input to `App.Run`.
- The startup channel: the networking task that sends on it (Arti bootstrap, onion service launch) is not part of this model. What it does to the channel before each `draw` (wait, send its one report, or drop the sender) is part of the round's input. A running onion service is reduced to its onion address.

## Findings

| source | as written | input that shows it | evidently intended | confidence | as-written member | corrected member |
|---|---|---|---|---|---|---|
| nebula-common/src/net/bonk/message.rs:102-110 | `write_framed` sends the header and the payload with `write` and ignores the byte counts it returns, so a partial write still returns `Ok(())` | payload `[7]`, stream accepts 2 of the 4 header bytes: `[0, 0, 7]` is sent, which is not a frame, and the next frame's header is read as 1792 | every byte of the frame reaches the stream (`write_all`) or the call fails with `WriterFailure` | medium, not executed | BonkFrame.WriteFramedAsWritten, BonkFrame.ShortHeaderWriteExample | BonkFrame.WriteFramed |
