# Quiz Master: session controller and question provider

This project models the core of a Thai-language quiz game (a React single-page application)
and proves properties of that model. It has two parts.

- **The game session** (`App.tsx`). A player picks a mode (Single Player, Multiplayer or
  Practice), a category and a difficulty. The app then fetches questions one at a time and
  scores each answer. After a feedback delay it either ends the game or moves on to the next
  question.
- **The question provider** (`services/geminiService.ts`). It turns the text returned by a
  language model into a quiz question. It strips an optional Markdown code fence, checks the
  parsed JSON's shape and stamps the question with the requested category and difficulty. It
  also decides when to serve a mock question and when to fail with an error.

Files:

- `quiz_types.dfy` (`QuizTypes`) holds the enums and records of `types.ts`, and the shape every
  question must have: four options, one of which is the answer.
- `gemini_service.dfy` (`GeminiService`) holds the following:
  - JavaScript's `trim`;
  - the fence regular expression `/^```(\w*)?\s*\n?(.*?)\n?\s*```$/s`, written as the
    positions it matches;
  - the structural validation over an abstract JSON value;
  - the mock/throw decision of `fetchQuizQuestion`;
  - the previous-questions block of the prompt.
- `scoring.dfy` (`Scoring`) holds the pure rules inside `handleAnswer`:
  - the score updater passed to `setScores`;
  - the timer body that ends the game or advances;
  - `Tally`, the scores a run of answers produces, with one lemma per mode about it.
- `app.dfy` (`App`) holds `SessionController`, a class whose fields are the React state cells.
  Its methods are the callbacks, the fetch effect and the timer.

Asynchrony is made explicit:

- `LoadNextQuestion` performs `loadNextQuestion` up to its `await` and returns the request
  that must be served.
- `FetchCompleted` delivers the settled promise.
- `HandleAnswer` arms the feedback timer by recording a `PendingAdvance`, and `Advance` fires
  it.

Two ghost fields carry the proof:

- `answers` records whether each answer was correct;
- `inFlight` counts the unsettled fetches.

`Valid()` ties the visible state to them. The scores are `Tally(mode, answers)`. There is one
answer per index, plus the one being shown. The turn alternates with the index. A game over
sits exactly at the question limit, with the winner that its scores decide. The questions
asked never outnumber the indices reached.

Three points of the code are worth stating plainly:

- The prompt asks the language model for four distinct options
  (`geminiPromptEnsureFourDistinctOptions`, localization/th.ts:87), but `parseGeminiResponse`
  never checks this, so `WellFormedQuestion` does not require it.
- The list of asked questions grows when a question arrives, and the question index grows when
  the feedback timer fires. The relation the code keeps between them is
  `|asked| + inFlight <= index + 1`, where `inFlight` counts the fetches not yet settled.
- Single Player ends after a fixed 10 questions with no winner. There is no streak or strike
  rule.

The feedback delay (`FEEDBACK_DELAY_MS`, 1500 ms) only orders events: the answer is shown
first and the timer step comes later. Its length plays no part in the model.

## Model

| member | source | states |
|---|---|---|
| GeminiService.Trim | services/geminiService.ts:10 | the result starts and ends with a non-whitespace character (or is empty) and is no longer than the input |
| GeminiService.TrimEmpty | services/geminiService.ts:10 | trimming gives the empty string exactly when the text is all whitespace |
| GeminiService.TrimPadded | services/geminiService.ts:10 | trimming removes exactly the surrounding whitespace: `Trim(lead + core + trail) == core` for a core without outer whitespace |
| GeminiService.TrimIdempotent | services/geminiService.ts:10 | trimming twice equals trimming once |
| GeminiService.FenceContent | services/geminiService.ts:14-16 | the fence regular expression matches exactly when the text is at least six characters long and starts and ends with three backticks; a non-empty capture has no outer whitespace |
| GeminiService.JsonText | services/geminiService.ts:10-18 | the text handed to JSON.parse is trimmed and never longer than the response |
| GeminiService.EmptyFenceParsedAsIs | services/geminiService.ts:14-17 | a fence holding only a tag and white space captures an empty group, so the trimmed text, fences included, is what JSON.parse receives |
| GeminiService.UnfencedParsedAsIs | services/geminiService.ts:10-18 | a response whose trimmed text is not fenced is parsed as that trimmed text |
| GeminiService.FenceUnwrapped | services/geminiService.ts:10-18 | for a fenced response (optional padding, an optional word tag, whitespace, the payload, whitespace, closing fence), exactly the payload is parsed |
| GeminiService.JsonTextOfFenced | services/geminiService.ts:14-17 | for any fenced response with a non-empty capture, the parsed text is the capture |
| GeminiService.ValidateQuestion | services/geminiService.ts:22-40 | accepts exactly the values of quiz shape (string question, array of exactly four strings, string answer among them); an accepted question is well formed, copies question, options and answer verbatim, and takes category and difficulty from the caller |
| GeminiService.ValidateRoundTrip | services/geminiService.ts:22-37 | every well-formed question, written as JSON, is accepted back unchanged |
| GeminiService.ParseGeminiResponse | services/geminiService.ts:9-47 | returns a question exactly when JSON.parse succeeds on the unfenced text and the value has quiz shape, otherwise null; a returned question is well formed, carries the caller's category and difficulty, and holds the payload's question text, its options in order and its correct answer verbatim |
| GeminiService.MockQuestion | services/geminiService.ts:59-65 | the mock question has options "3", "4", "5", "6" and answer "4", so it is well formed, and it carries the given text, category and difficulty |
| GeminiService.Recover | services/geminiService.ts:107-121 | a thrown Error whose message contains "API key not valid" or "Quota" yields the mock question with " (API Error)" appended to its text; anything else is rethrown with the prefix and the original message |
| GeminiService.FetchQuizQuestion | services/geminiService.ts:49-122 | with no API key it returns the mock question; any returned question is well formed, carries the requested category and difficulty, and is the mock, the API-error mock or the parsed response; with a key, a response that parses resolves to exactly the parsed question, and a failed call ends as `Recover` decides for the thrown value; every rejection carries the prefix |
| GeminiService.ParseFailureRejects | services/geminiService.ts:99-106 | when the response does not parse into a question, the fetch rejects with the prefix followed by the parse-failure message; it never serves a mock for it |
| GeminiService.KeyOrQuotaErrorServesMock | services/geminiService.ts:110-118 | an API error mentioning an invalid key or the quota resolves to the API-error mock question |
| GeminiService.PreviousQuestionsText | services/geminiService.ts:70-72 | the previous-questions block is empty exactly when no question was asked before |
| GeminiService.PreviousQuestionsListed | services/geminiService.ts:70-72 | otherwise the block is a newline, the header, a newline, then one "- " line per previous question, in order |
| Scoring.QuestionLimit | constants.ts:22-23 | a Single Player and a Multiplayer game both last 10 questions |
| Scoring.ScoreAnswer | App.tsx:112-138 | Single Player: exactly one of the correct and incorrect totals rises by one, the correct one exactly when the answer is right, and p1 and p2 stay put. Multiplayer: only the active player can gain, by one, and only when right. Practice: p1 gains one exactly when right. A wrong answer changes no score, and no tally ever decreases |
| Scoring.MultiplayerWinner | App.tsx:157-160 | player 1 wins exactly when p1 > p2, player 2 exactly when p2 > p1, and it is a draw exactly on equal scores |
| Scoring.AdvanceStep | App.tsx:140-171 | the game ends exactly when the mode is not Practice and index + 1 reaches 10; Single Player ends with no winner, Multiplayer with the winner of the scores; otherwise the index rises by exactly one and only Multiplayer hands the turn to the other player |
| Scoring.AdvanceKeepsTurnOrder | App.tsx:161-164 | moving on hands the turn to the player expected at the next index: players alternate in Multiplayer starting with player 1 |
| Scoring.SinglePlayerTally | App.tsx:118-123 | after any Single Player answers, the correct total counts the right answers, the incorrect total counts the rest, and p1 = p2 = 0 |
| Scoring.MultiplayerTally | App.tsx:124-126 | after any Multiplayer answers, each player's score counts the right answers given on that player's turns, and both totals stay 0 |
| Scoring.PracticeTally | App.tsx:127-128 | after any Practice answers, p1 counts the right answers and nothing else moves |
| Scoring.TallyGrows | App.tsx:112-138 | scores after a prefix of the answers never exceed the scores after all of them |
| Scoring.CountCorrectAtBound | App.tsx:124-126 | after n Multiplayer answers, player 1 has at most ceil(n/2) points and player 2 at most floor(n/2) |
| Scoring.PerfectMultiplayerGameIsDraw | App.tsx:155-160 | ten right Multiplayer answers give 5-5 and a draw |
| Scoring.NoCorrectAnswerIsDraw | App.tsx:155-160 | Multiplayer answers that are all wrong leave 0-0 and a draw |
| App.SessionController.constructor | App.tsx:23-40 | the initial state: start screen, no settings, every cell at its initial value |
| App.SessionController.ResetGameState | App.tsx:42-55 | back to the start screen with no settings, no question, nothing asked, zero scores, player 1, index 0, no loading, error, answer or winner; the invariant holds |
| App.SessionController.HandleStartGame | App.tsx:81-94 | the chosen settings on the game screen with the same fresh state, after which the fetch guard holds |
| App.SessionController.LoadNextQuestion | App.tsx:57-79 | without settings nothing changes; otherwise loading is raised, error, reveal and selection are cleared, and a fetch is requested for the game's category and difficulty with the questions asked so far |
| App.SessionController.RunFetchEffect | App.tsx:96-100 | a fetch starts exactly when the game screen is shown, settings exist, there is no question, nothing is loading and no error is set (an empty message counts as none, as `!error` does); the started fetch is the game's first, with an empty asked list, and it clears the error and the revealed answer and raises the loading flag |
| App.SessionController.FetchCompleted | App.tsx:65-78 | a fetched question becomes the current one and exactly its text is appended to the asked list; a failure stores its message as the error and leaves the question and the asked list alone; scores, index and turn never change; loading ends; a failure before the first question lets the fetch effect fire again exactly when its message is empty |
| App.SessionController.HandleAnswer | App.tsx:103-173 | with no question, an answer already shown, or no settings, nothing changes (so a second answer is ignored); otherwise the answer is recorded and shown, it counts as right exactly when it equals the correct answer, it is scored by ScoreAnswer for the active player, and the timer is armed with the index and the new scores |
| App.SessionController.Advance | App.tsx:140-171 | with no timer armed nothing changes; otherwise the captured step runs: at the limit the game is over with the step's winner, otherwise the index and turn move on and the next fetch starts |
| App.SessionController.EndGame | App.tsx:144-160 | the game-over step: game-over screen and the winner of the final scores, with the invariant kept |
| App.SessionController.MoveToNextQuestion | App.tsx:150-169 | the continue step: the next index and turn, with loading raised and the next fetch requested |
| App.SessionController.SinglePlayerGameOver | App.tsx:144-149 | at a Single Player game over, correct plus incorrect is 10, the correct total counts the right answers, and there is no winner |
| App.SessionController.MultiplayerGameOver | App.tsx:156-160 | at a Multiplayer game over ten answers were given, each player scored at most 5 (the right answers on that player's turns), and the winner is the one the final scores decide |

## Left out

- The `console.error` and `console.warn` calls (services/geminiService.ts:39, 42-44, 58, 104,
  108 and 111; App.tsx:75) are left out. They only write diagnostics and change no state.
- A `string` here is a sequence of Unicode scalar values, whereas JavaScript strings are UTF-16
  code units. A JSON string holding a lone surrogate has no counterpart in the model.
- The network call to the model, the model name and the prompt text other than the
  previous-questions block. The model's outcome is a parameter (`ApiOutcome`), either a
  response text or a thrown value.
- `JSON.parse`. It is a parameter `jsonParse: string -> Option<Json>`; None stands for a
  thrown SyntaxError. Truthiness checks on the parsed value are read off the abstract `Json`
  value.
- The sampling temperature chosen by difficulty, because it is a floating-point configuration
  value.
- The API key environment variable is a parameter (`Option<string>`). A missing key and an
  empty key both count as unconfigured.
- The localized mock text and the prompt header come from the localization tables. They are
  parameters (`mockText`, `header`).
- GeminiService.FetchQuizQuestion: the catch branch for a thrown value that is not an `Error`
  is modelled as `OtherThrown(shown)`, where `shown` stands for `String(error)`. How
  JavaScript renders arbitrary values as strings is not modelled.
- App.SessionController.FetchCompleted: it takes the settled result of `fetchQuizQuestion`.
  That result only ever rejects with an `Error`, so the fallback message for other thrown
  values (App.tsx:74) is unreachable and not modelled.
- App.SessionController.ResetGameState: it also disarms a pending feedback timer and forgets
  unsettled fetches. In the source a timer armed before a restart still fires with the
  settings it captured, and a fetch started before a restart still settles into the new
  session. Those stale callbacks are not modelled.
- App.SessionController.HandleStartGame: the same applies to a pending timer and unsettled
  fetches.
- App.SessionController.Advance: the Multiplayer turn toggle reads the live turn, as the
  functional update does. The stale-closure capture of the asked list inside the timer is
  not reproduced. The request carries the list as it is when the timer fires.
- `setTimeout`, React batching and re-rendering. The delayed advance is the explicit `Advance`
  step and the effect is the explicit `RunFetchEffect` step. Their order relative to other
  events is whatever the caller chooses.
- While a fetch is loading or after an error, answer buttons are hidden by the screen
  component, not by `handleAnswer`. `HandleAnswer` follows `handleAnswer` and accepts an
  answer to the still-current question then.
- All presentation components, sharing and clipboard logic, progress percentages and display
  names, because they are UI, browser APIs or inert data.
