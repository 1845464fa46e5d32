# Lichess Board API demo: turn loop and game setup, in Dafny

This project models the terminal client that plays one game on lichess through
the Board API, with a human typing the moves. It covers two parts of the
program.

- **The game-stream loop of `main`.** The first event of the game stream fixes
  our colour ("color", kept when "isMyTurn" is true, swapped otherwise).
  A string flag `stm` starts equal to that colour. Every later chunk is then
  handled in order:
  - blank chunks and `chatLine` events are skipped;
  - on other events, when `stm` differs from our colour, the loop only flips
    `stm`;
  - when they are equal, it takes the event's move list ("state"."moves" when
    the event has a "state" member, the top-level "moves" otherwise), replays
    it from the initial position, reads one line from the operator, parses it
    as a SAN move in that position and submits it, then flips `stm`.
- **Getting a game id.** This is `join_game` ("c" creates a challenge with
  retries, "j" joins the first ongoing game) and the same choice written inline
  in `main`. It includes `create_new_game`, which runs the four-question
  challenge dialogue and scans the server's reply for the first chunk
  mentioning "gameId". It also includes the parsers it uses:
  `ChallengeColour::from_str`, the rated answer, and the "min+inc" time control
  read as `u32` minutes times 60.

`src/main.rs` and `src/lichess_control.rs` hold identical copies of
`from_str`, the challenge dialogue and `create_new_game`. Each is modelled
once. The table cites one copy or the other, and both copies hold the cited
behaviour.

External collaborators are parameters of the model:

- `serde_json` parsing is a function `string -> Option<Json.Value>`.
- The chess rules (parse a UCI token, check legality, play it) are
  `apply: (B, string) -> Option<B>` over an abstract position type `B`.
- SAN parsing in a position is `san: (B, string) -> Option<M>`.
- Standard input is a sequence of lines. Once it is exhausted, `read_line`
  yields the empty string.
- The game stream is a sequence of chunks, each either text or a transport
  error.
- The challenge server is a function from the attempt number and the request
  to the reply chunks.

A panic (`unwrap` on `None`/`Err`, `panic!`) is a distinct outcome in every
module: `Crashed(fault)`, `Failure(BadOptions(..))`, and so on. An early
`return` is a normal outcome: `NoMoveList`, or `Success((None, rest))`.

Modules:

- `Wrappers` holds `Option` and `Result`.
- `Text` models the Rust string operations the program uses: `trim`,
  `to_lowercase`, `split_whitespace`, `split('+')`, `contains` and
  `parse::<u32>`.
- `Json` holds the accessors of `serde_json::Value` that the program calls.
- `Channels` holds standard-input lines and stream chunks.
- `Challenge` holds the colour, rated and time-control parsers and the
  dialogue.
- `Lobby` holds the reply scan, the retry loop, `join_game` and the choice in
  `main`.
- `BoardReplay` holds the move-list replay.
- `TurnLoop` holds the game loop.

## Model

| member | source | states |
|---|---|---|
| Text.Trim | src/main.rs:159-162 | The trimmed text is empty exactly when the chunk is all whitespace, which is the test that skips blank lines. Otherwise both ends of the result are non-whitespace. |
| Text.TrimPadded | src/main.rs:216-217 | Trimming removes exactly the surrounding Unicode whitespace. A trimmed move surrounded by any whitespace comes back unchanged. |
| Text.ToLower | src/lichess_control.rs:96 | Lower-casing keeps the length. Each capital A-Z becomes its small letter and KELVIN SIGN becomes 'k', so no ASCII capital survives. Every other ASCII character stays in place. |
| Text.LowerMatchesWord | src/lichess_control.rs:88-91 | An answer lower-cases to a lower-case ASCII word, such as "y", "n", "c" or "j", exactly when it spells that word in any mix of cases. So "Y" is taken like "y", and no other answer is. |
| Text.NormalizePadded | src/lichess_control.rs:161 | `trim().to_lowercase()` of a padded answer is the lower case of the answer itself. |
| Text.SplitWhitespace | src/main.rs:195 | Every token is non-empty and free of whitespace. There are no tokens exactly when the move list is blank. Which tokens come out is stated by `Text.SplitJoinRuns` and `Text.SplitWhitespaceRebuilds`. |
| Text.SplitWhitespaceSkipsWhitespace | src/main.rs:195 | Leading whitespace of any length and kind yields no token. |
| Text.SplitWhitespaceRun | src/main.rs:195 | A token after any leading whitespace and before a non-empty whitespace run is the first token, and splitting carries on after the run. |
| Text.SplitJoinRuns | src/main.rs:195 | Tokens laid out with any leading whitespace, separated by whitespace runs of any length and kind, and with optional trailing whitespace, split back to exactly those tokens in order. |
| Text.SplitWhitespaceRebuilds | src/main.rs:195 | Every string is such a layout of its own tokens: the tokens, put back with the whitespace that came before, between and after them, rebuild the string. |
| Text.SplitJoinSpaces | src/main.rs:195 | Splitting well-formed tokens joined by single spaces gives the same tokens back, in order. |
| Text.SplitOn | src/lichess_control.rs:98-99 | `split('+')` yields at least one piece and no piece holds '+'. Joining the pieces with '+' gives the input back. |
| Text.SplitJoinWith | src/lichess_control.rs:105-107 | Splitting '+'-free pieces joined by '+' gives exactly those pieces. |
| Text.ContainsIffOccurs | src/lichess_control.rs:135 | `contains("gameId")` holds exactly when the pattern occurs at some index. |
| Text.ParseU32RoundTrip | src/lichess_control.rs:102 | `parse::<u32>` reads every rendered `u32` back as itself. |
| Text.ParseU32RejectsOverflow | src/lichess_control.rs:102-103 | A decimal number beyond 2^32-1 is refused. |
| Text.ParseU32RejectsNonDigits | src/lichess_control.rs:109-110 | The empty string, a bare '+', and any text holding a non-digit past an optional leading '+' are refused. |
| Challenge.FromStr | src/lichess_control.rs:26-33 | A colour is returned exactly for the three names, compared verbatim, and it is the colour of that name. |
| Challenge.FromStrRoundTrip | src/main.rs:33-40 | Every colour is parsed back from its own name. |
| Challenge.ParseRated | src/lichess_control.rs:88-92 | The answer is rated iff it normalises to "y" and casual iff it normalises to "n". It is refused iff it normalises to neither. |
| Challenge.RatedAnswerTolerant | src/main.rs:271-275 | Whitespace padding and case do not matter: a padded answer is rated iff its core lower-cases to "y", and casual iff it lower-cases to "n". |
| Challenge.ParseTimeControl | src/lichess_control.rs:98-110 | A parsed limit is always a whole number of minutes. Every failure is a bad limit, an overflow of `*60`, or a bad increment. |
| Challenge.TimeControlFields | src/lichess_control.rs:98-110 | For any '+'-separated fields, parsing succeeds iff: the first field is a `u32`, its product with 60 fits in a `u32`, and the last field is a `u32`. The limit is then 60 times the first field and the increment is the last field. |
| Challenge.TimeControlRoundTrip | src/main.rs:284-285 | "m+i" gives a limit of m*60 seconds and an increment of i. |
| Challenge.TimeControlSingleField | src/main.rs:284-285 | Without a '+', the single field is both the minutes and the increment. |
| Challenge.TimeControlOverflow | src/lichess_control.rs:98-104 | Minutes whose seconds exceed `u32` are refused, whatever follows the '+'. |
| Challenge.GetChallengeOptions | src/lichess_control.rs:76-124 | A successful dialogue consumes exactly four lines. The request holds the normalised username, rated iff the third answer is "y", the colour named by the fourth answer, the clock parsed from the second answer, variant "standard", no FEN and keep-alive set. When it succeeds is stated by `Challenge.OptionsFailures`. |
| Challenge.OptionsFailures | src/lichess_control.rs:88-110 | The dialogue succeeds iff the rated answer, the colour and the time control are all accepted. It fails on the rated answer exactly when that answer is neither "y" nor "n". It fails on the colour exactly when the rated answer was accepted and the colour is none of the three names. With both accepted, a bad clock fails with the time-control parser's own error. |
| Lobby.FirstStop | src/lichess_control.rs:132-135 | Gives the index of the first chunk that is a transport error or mentions "gameId". No earlier chunk does either. |
| Lobby.ScanDecidedAtFirstStop | src/lichess_control.rs:132-140 | The scan's result depends only on the first stopping chunk. The result is nothing when the stream ends or fails first, and otherwise that chunk's "gameId" when it is a string. |
| Lobby.ScanIgnoresLaterChunks | src/main.rs:299-307 | Chunks after the first stopping chunk never change the scan's result. |
| Lobby.AwaitGameId | src/lichess_control.rs:130-140 | The `while let Some(Ok(..))` loop computes the scan over the whole reply stream. |
| Lobby.ScanForGameId | src/lichess_control.rs:131-140 | The scan fails only on an unreadable reply, and gives something other than "no id" only when the first stopping chunk is text. Its full behaviour is stated by `Lobby.ScanDecidedAtFirstStop`. |
| Lobby.CreateNewGame | src/lichess_control.rs:126-151 | A game id is obtained only after a complete dialogue, with four lines consumed. The id is what the scan of the server's reply to that very request gives. Every failure is a refused answer or an unreadable reply. |
| Lobby.CreateNewGameOutcome | src/lichess_control.rs:126-151 | A refused answer fails with that answer's error. After a complete dialogue, an unreadable reply fails, and otherwise the result is the scan of the reply to that request, with four lines consumed. |
| Lobby.RetryReturnsScannedId | src/lichess_control.rs:162-175 | An id returned by the retry loop comes from some attempt j. The dialogue of attempt j, read from line 5j on, succeeded, and the scan of the reply to its own request gave that id. Every earlier attempt got no id and was answered "y". |
| Lobby.RetryStops | src/lichess_control.rs:163-174 | One turn of the loop in each case. A panicking attempt ends the loop with that panic. An attempt that yields an id ends it with that id. An attempt without an id followed by "y" runs the next attempt on the remaining lines. Followed by any other answer, it ends the loop with nothing. |
| Lobby.CreateWithRetry | src/lichess_control.rs:162-175 | Every failure is a refused answer or an unreadable reply. Its behaviour turn by turn is stated by `Lobby.RetryStops`, and what it returns by `Lobby.RetryReturnsScannedId`. |
| Lobby.JoinExisting | src/lichess_control.rs:176-188 | With no ongoing game the result is nothing. Otherwise it fails iff the first game's "gameId" exists and is not a string, and gives an id iff "gameId" is a string, and then gives that string. |
| Lobby.JoinGame | src/lichess_control.rs:158-192 | An answer that normalises to "c" runs the create loop on the remaining input, "j" joins, and anything else gives nothing and consumes only that line. |
| Lobby.JoinAnswerTolerant | src/lichess_control.rs:159-161 | A padded answer whose core lower-cases to "j" joins, consuming one line. |
| Lobby.ChooseGame | src/main.rs:86-129 | It panics on the account list exactly when the list is not JSON, and on "nowPlaying" exactly when the list is JSON but "nowPlaying" is not an array. That it equals `join_game` is stated by `Lobby.ChooseGameIsJoinGame`. |
| Lobby.ChooseGameIsJoinGame | src/main.rs:86-129 | The inline choice in `main` fails when the account list is not JSON, or when "nowPlaying" is not an array. Otherwise it equals `join_game` applied to the number of ongoing games and the first of them. |
| BoardReplay.Replay | src/main.rs:194-200 | A failed replay names a token index inside the move list. |
| BoardReplay.ReplayFailsAtFirstRejected | src/main.rs:196-199 | Replay fails at index i exactly when the tokens before i replay and token i is rejected in the position they reach. |
| BoardReplay.ReplayAppend | src/main.rs:194-200 | Replaying a concatenation replays the first part and continues from the position it reaches. A failure in the first part is final, and failure indices shift by the length of the first part. |
| BoardReplay.ReplaySnoc | src/main.rs:196-199 | One more token is one more step of the fold, failing at its own index. |
| BoardReplay.ReplayEmpty | src/main.rs:194 | An empty move list leaves the initial position. |
| BoardReplay.ReplayMoves | src/main.rs:194-200 | The loop over the tokens computes the replay, stopping at the first rejected token. |
| TurnLoop.Toggle | src/main.rs:230-234 | The flip is defined exactly on "white" and "black", and it returns the other side. |
| TurnLoop.ToggleTwice | src/main.rs:177-181 | Flipping a side twice returns it. |
| TurnLoop.ResolveColour | src/main.rs:147-150 | Succeeds iff "color" is a string, "isMyTurn" is a boolean, and either it is our turn or the colour names a side. On our turn the colour is kept; otherwise it is the other side. |
| TurnLoop.Classify | src/main.rs:156-173 | A chunk is blank iff its text is all whitespace. A transport error fails as such, and a non-blank chunk that is not JSON fails as unreadable. For a parsed non-blank chunk: it fails with `TypeNotString` iff "type" is present and not a string; it is chat iff "type" is "chatLine"; it is a substantive event iff "type" is absent or another string. |
| TurnLoop.MovesOf | src/main.rs:186-192 | With a "state" member, a move list exists iff state's "moves" is a string, and the list is that string. Without one, a list exists iff the top-level "moves" is a string, and the list is that string. |
| TurnLoop.MovesNoFallback | src/main.rs:186-188 | A "state" member without "moves" hides a top-level "moves". |
| TurnLoop.MovesPreference | src/main.rs:186-188 | For any "state" object whose "moves" is a string, that nested list wins over a top-level "moves", whatever else either object holds. Without "state" the top-level list is used. |
| TurnLoop.Act | src/main.rs:185-219 | Without a move list the loop returns. The first rejected token panics, naming its index and text. An empty list panics when the last move is taken. An unreadable operator move panics. Otherwise the result is the replayed position, the SAN of the trimmed next input line, and the rest of the input. |
| TurnLoop.Answer | src/main.rs:213-219 | The operator's first line, trimmed, is parsed in the given position. An unreadable move panics with that text. Otherwise the result is the position, the move, and the input after that line. |
| TurnLoop.Step | src/main.rs:155-234 | Blank and chat chunks change nothing. The loop waits exactly on substantive events when `stm` differs from our colour and names a side. It acts only when `stm` equals our colour. With valid sides it never panics on the flip, and `stm` stays a side. A step that acted and then stopped did so because `stm` named no side. Its failures are stated by `TurnLoop.StepHalts`. |
| TurnLoop.StepHalts | src/main.rs:156-234 | A broken chunk, a non-JSON chunk or a non-string "type" panics with that fault. A flip of an `stm` that names no side panics. On our turn, a missing move list returns, and a rejected token, an empty list or an unreadable move panics, as `TurnLoop.Act` states. A step stops in no other case, and never with the end of the stream. |
| TurnLoop.Run | src/main.rs:154-235 | The loop makes at most one decision per chunk. How it ends is stated by `TurnLoop.RunHalts`, and its decisions by `TurnLoop.DecisionsFollowChunks`, `TurnLoop.Alternation` and `TurnLoop.IncidentalChunksInvisible`. |
| TurnLoop.RunHalts | src/main.rs:155-235 | The loop ends with the end of the stream exactly when every chunk lets it continue, and then it has made one decision per chunk. Otherwise it ends with the halt of the first step that stops: one decision per earlier chunk, then that step's own decisions and halt. |
| TurnLoop.RunEndsAtFirstStop | src/main.rs:155-235 | If the loop reaches chunk k and the step on chunk k stops, the loop ends with that step's halt after one decision per earlier chunk. |
| TurnLoop.PlayGame | src/main.rs:143-155 | A stream without a first chunk panics as such, and a broken or non-JSON first chunk panics as unreadable, both before any decision. A first event whose "color" or "isMyTurn" is unusable panics with the fault `TurnLoop.ResolveColour` gives. Otherwise the loop runs on the remaining chunks from our colour. Every decision belongs to a chunk after the first. Turn order is stated by `TurnLoop.PlayGameAlternates`. |
| TurnLoop.Alternation | src/main.rs:154-235 | With both colour and `stm` naming a side, acting and waiting alternate strictly over the substantive events, beginning with acting iff `stm` equals our colour. The loop never panics on the flip. |
| TurnLoop.PlayGameAlternates | src/main.rs:143-155 | From the start of a game whose first event names a side, the loop acts on the 1st, 3rd, 5th, ... substantive events. |
| TurnLoop.DecisionsFollowChunks | src/main.rs:155-219 | Decision k belongs to chunk k. Skips are exactly the blank and chat chunks. Every action was taken on a substantive event whose non-empty move list replays to the position the move was chosen in. |
| TurnLoop.IncidentalChunksInvisible | src/main.rs:158-173 | Inserting a blank or chat chunk anywhere changes neither the visible decisions nor how the loop ends. |
| TurnLoop.UncheckedColourActsOnce | src/main.rs:150-234 | A colour that names no side, possible only when it was our turn at the start, leads to at most one action and then a panic at the flip. |
| TurnLoop.AnswersFirstMove | src/main.rs:186-219 | On our turn, a first event carrying the single move m (for example "e2e4" when we play black) is answered once. The answer is given in the position m leads to, using the operator's next line, whatever else is typed. |

## Left out

- HTTP: the client, the bearer token, the account and game-stream requests, and `send_challenge`'s body encoding. The JSON encoding of `main.rs` and the URL-form encoding of `lichess_control.rs` are the one place where the two copies differ, and neither is modelled. The server appears only as a function from attempt and request to reply chunks.
- `send_move_to_game` and the `res.text().await.unwrap()` after it. The model treats a submission as always accepted.
- `serde_json` parsing and `serde` serialisation, modelled as a parse function. JSON numbers are integers, since the program never reads one.
- The chess library: UCI and SAN parsing, legality, and printing the legal moves. These are the `apply` and `san` functions.
- Logging, `println!`, and flushing standard output.
- UTF-8 decoding of chunks, `from_utf8(..).unwrap()` and `from_utf8_lossy`. Chunks are already text, and each chunk is taken to hold exactly one JSON document.
- Errors from `read_line` itself.
- `src/engine.rs`, the engine move source, is not part of this model.
- Text.ToLower: models only the lower-case mappings that yield ASCII (A-Z, and KELVIN SIGN to 'k'). Other Unicode case mappings of `to_lowercase` are left out, because the answers that are compared are ASCII. The username is lower-cased too and sent in the request (`Challenge.GetChallengeOptions`). For a name with non-ASCII capitals, the modelled request therefore keeps those capitals where the program sends lower case; "ÉVA" becomes "Éva", not "éva".
- Challenge.ParseTimeControl: treats a `* 60` that exceeds `u32` as a failure, which matches the overflow panic of a debug build. A release build would wrap instead.
- Lobby.CreateWithRetry: the retry loop is modelled as a function that ends when standard input runs out, since an exhausted input reads as "" and so declines a retry.

## Behaviour worth noting

The loop does not work the side to move out of the position, and it does not
let the operator retry a move. In detail:

- The side to move is a string flag flipped once per substantive event.
- Events are replayed only on our turn.
- An unreadable operator move is a panic (`UnreadableMove`), not a retry.
- Colour validation is skipped when "isMyTurn" is true (see `TurnLoop.UncheckedColourActsOnce`).
- There is no game-over detection: the loop runs until the stream ends.
