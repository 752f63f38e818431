# Lateral-thinking puzzle server: the game state machine

This project models the game core of a small puzzle server in Dafny. The server holds one
in-memory game at a time. A *start* request draws a puzzle from a fixed catalogue of three
puzzles. Each puzzle pairs a story with its hidden solution. A start replaces the whole game
record: puzzle, solution and an empty question history. An *ask* request sends a prompt to an
external judging oracle. The prompt holds the puzzle, the solution and the player's question.
The oracle's reply, trimmed of surrounding whitespace, is stored in the history and returned.
An ask is refused when no puzzle is set. When the oracle fails, nothing is stored.

Modules:

- `JsText` (`jstext.dfy`): ECMAScript `String.prototype.trim`, which is applied to the oracle's reply.
- `Catalogue` (`catalogue.dfy`): the puzzle entries, with the exact texts of the server.
- `Prompt` (`prompt.dfy`): the prompt template the ask handler fills in.
- `Game` (`game.dfy`): the game record as a value (`GameState`). It also holds the two handlers
  as step functions (`StartStep`, `AskStep`). The class `GameServer` holds the record as mutable
  fields and has one method per handler. Each method is proved to produce exactly the new state
  and response of its step function.
- `Session` (`session.dfy`): sequences of requests (`Run`). Lemmas here say what any run of
  requests does to the record.

The oracle is a parameter `oracle: string -> OracleResult`. It maps the prompt text to `Ok(text)`
or `Fail`. `Fail` stands for any exception thrown while calling the service or reading its text.
The random draw of a catalogue index is replaced by an index argument `i < |PUZZLES|`.

The code, not a broader description of the system, is what is modelled:

- There is one global game. There are no room identifiers and no status request.
- A start on a game in progress is not a join. It always draws a new puzzle and clears the
  history (`StartResets`, `LastStartDecides`).
- The server does not skip empty or whitespace-only questions. Only the browser client does
  that, so such questions are judged and logged like any other.
- The ask guard is JavaScript truthiness of the puzzle field. A `null` puzzle and an empty
  puzzle both count as "not started" (`Started`). `StartedIffPuzzleSet` shows that in every
  consistent state this is the same as "a puzzle is set".

## Model

| member | source | states |
|---|---|---|
| `JsText.IsWhitespace` | server/server.js:108 | the characters trim removes are the ECMAScript WhiteSpace and LineTerminator code points (TAB, VT, FF, U+FEFF, the Zs category, LF, CR, U+2028, U+2029); among ASCII exactly TAB, LF, VT, FF, CR and space; U+0085, U+200B and U+180E are not removed |
| `JsText.SkipLeading` | server/server.js:108 | the forward scan of trim stops at the first non-whitespace character (or the end), with only whitespace before it |
| `JsText.SkipTrailing` | server/server.js:108 | the backward scan of trim stops just past the last non-whitespace character (or at its lower bound), with only whitespace after it |
| `JsText.SkipLeadingUnique` | server/server.js:108 | the forward scan's stopping point is the only index with those two properties |
| `JsText.SkipTrailingUnique` | server/server.js:108 | the backward scan's stopping point is the only index with those two properties |
| `JsText.Trim` | server/server.js:108 | the trimmed answer is a contiguous slice of the reply, with only whitespace removed on either side, and neither starts nor ends with whitespace |
| `JsText.TrimExact` | server/server.js:108 | trim removes exactly the surrounding whitespace: `Trim(p + m + q) == m` when `p`, `q` are whitespace and `m` has non-whitespace ends |
| `JsText.TrimIdempotent` | server/server.js:108 | trimming a stored answer again does not change it |
| `Catalogue.CatalogueWellFormed` | server/server.js:27-40 | the catalogue `PUZZLES` (a constant holding the server's three story/solution pairs verbatim, in order) has three entries; every story is non-empty and differs from its solution |
| `Prompt.BuildPrompt` | server/server.js:88-103 | the prompt starts with the game-master preamble and ends with the answer instructions; it carries the puzzle, the solution and the question verbatim at fixed offsets |
| `Prompt.PromptDeterminesQuestion` | server/server.js:94 | for a fixed puzzle and solution, equal prompts mean equal questions, so the oracle sees the player's question unaltered |
| `Game.ErrorMessage` | server/server.js:82-114 | the error text is "Game not started" when no game is started (line 82) and "Failed to get response from AI" when the oracle fails (line 114) |
| `Game.Started` | server/server.js:81 | the ask guard is the truthiness of the puzzle field: the initial record (puzzle null) and a record whose puzzle is the empty text are not started |
| `Game.SolutionText` | server/server.js:92 | the solution as interpolated into the prompt: the stored solution verbatim when set, the text "null" when null |
| `Game.StartStep` | server/server.js:64-76 | whatever the prior state, start leaves a started game with an empty history; puzzle and solution are the two halves of the drawn catalogue entry; the response carries exactly the stored puzzle, which is never the solution |
| `Game.AskStep` | server/server.js:78-116 | not started: state unchanged, "Game not started", oracle not consulted; started: the oracle gets the prompt for this puzzle, solution and question; on a reply the trimmed text is both the returned answer and the one entry appended at the end of the history; on a failure the state is exactly as before; puzzle and solution never change |
| `Game.StartedIffPuzzleSet` | server/server.js:81-83 | in a consistent state the truthiness guard holds exactly when a puzzle is set |
| `Game.StartKeepsConsistent` | server/server.js:64-76 | a start establishes the invariant from any prior record: puzzle and solution from one catalogue entry |
| `Game.AskKeepsConsistent` | server/server.js:78-116 | an ask preserves the invariant: no puzzle, no solution and an empty history, or puzzle and solution from one catalogue entry |
| `Game.GameServer.constructor` | server/server.js:21-25 | the server comes up with puzzle and solution null and an empty history, not started |
| `Game.GameServer.Start` | server/server.js:64-76 | the fields and the response after the in-place start are exactly those of `StartStep`; the invariant holds afterwards |
| `Game.GameServer.Ask` | server/server.js:78-116 | the fields, the response and the prompt sent after the in-place ask are exactly those of `AskStep`; the invariant is preserved |
| `Session.Answers` | server/server.js:105-111 | the reference log of a run of asks has at most one entry per question |
| `Session.RunKeepsConsistent` | server/server.js:21-116 | every sequence of starts and asks from a consistent state ends in a consistent state |
| `Session.AsksBeforeStartChangeNothing` | server/server.js:81-83 | before a start, any sequence of asks leaves the record unchanged |
| `Session.AsksAppendAnswers` | server/server.js:105-111 | between starts the history is append-only: a run of asks keeps puzzle and solution and appends exactly the answered questions' entries, in order |
| `Session.LastStartDecides` | server/server.js:69-73 | after any sequence of requests, the state is the entry drawn by the last start, with a history of exactly the answers to the asks after it |
| `Session.AllAnsweredLogsEveryQuestion` | server/server.js:110 | after N asks that the oracle all answers, the log has N entries, and entry k holds the k-th question as submitted |
| `Session.StartResets` | server/server.js:69-73 | a start after any history empties the history and installs the drawn entry; there is no join |

## Left out

- HTTP wiring: the Express app, JSON body parsing, the status codes 400 and 500, and `app.listen`
  (server/server.js:1-11, 118-120). Responses are datatypes. The error bodies are kept as
  `Game.ErrorMessage`.
- The `/api/token` Discord OAuth exchange (server/server.js:42-62). It is a network call to a
  foreign service.
- The Gemini client and model selection (server/server.js:14-17, 86, 106-107). They are replaced
  by the `oracle` parameter. The model does not restrict which texts the oracle may reply with,
  and neither does the server.
- `Math.random`: the draw is an index argument. Which entry is chosen, and how likely each is,
  is not modelled.
- Interleaving at the `await`s in the ask handler. Each handler is one atomic step. In the real
  server, a start that runs while an ask awaits the oracle replaces the record. The pending
  answer, judged against the old puzzle, is then pushed onto the new game's history. The model
  does not capture this.
- Request bodies without a string `question`. The model takes the question as a string. The
  server would interpolate `undefined` into the prompt and store it.
- The `console` logging of oracle errors.
- client/main.js (the browser UI, including its skip of empty questions), server/debug_gemini.js
  and server/check_models.js (diagnostic scripts). They are not part of this model.
