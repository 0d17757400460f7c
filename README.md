# Castle.ai page logic, modelled in Dafny

Castle.ai is a browser chess tutor built with Next.js. This project models
the logic inside its page and route handlers: the free-play game against an
AI, the puzzle navigator, the paginated list of openings (both the client
page and the `GET /api/openings` route) and the bearer-token gate that wraps
authenticated routes.

- `wrappers.dfy` (`Wrappers`): the `Option` type, and `FalsyOr`, which
  is JavaScript's `value || fallback` on a string. `None` stands for
  JavaScript's `undefined`/`null`/`NaN` where the source reads a value that
  may be absent.
- `collaborators.dfy` (`Collaborators`): the rules engine (chess.js) and
  the `/api/openai` oracle, left abstract.
  - Positions are FEN strings, as the pages store them.
  - `Engine` holds three functions: `turn`, `moves` (the legal moves in
    standard algebraic notation) and a partial `apply`.
  - `Engine.Sound` says that every listed move is accepted.
  - An oracle reply is either `Failed` or the reply text.
- `play.dfy` (`Play`): `PlaySession`, a class holding the free-play page's
  state: `game`, `mode`, `gameStarted`, `moveHistory`, `moveIndex`.
  - Its invariant keeps the cursor inside the history and the board equal
    to the entry under the cursor.
  - Pure functions give the AI's move choice: trim the reply, check it is
    legal, otherwise fall back to a random legal move.
- `puzzle.dfy` (`PuzzlePage`): `PuzzleSession`, a class holding the puzzle
  list, the cursor, the board, the last move, the message, the hint and
  the loading flag.
- `openings_route.dfy` (`OpeningsRoute`): the route as a pure function of
  the parsed query parameters and the collection. It covers the defaults,
  the 400 check, the skip offset, the page slice and the ceiling page
  count.
- `learn.dfy` (`Learn`): the openings page.
  - Pure functions: previous/next clamping, the five-link window, the
    ellipsis, the shortened opening names and the request sent for a page.
  - `LearnPage`, a class for the page, the openings, `totalPages` and the
    loading flag.
- `auth.dfy` (`Auth`): `split(" ")`, token extraction and
  `authenticateToken`. `jwt.verify` and the wrapped handler are function
  parameters.

These files contain no lesson-script tokeniser, terminal-status lock or
session save/restore. The model follows the code, so it has none of them.
The puzzle page never checks a move against a solution: it only sets a
placeholder message. The model does the same.

## Model

| member | source | states |
|---|---|---|
| `Play.Trim` | app/play/page.js:106 | the trimmed reply has no white space at either end, is no longer than the reply, and is empty exactly when the reply is all white space |
| `Play.TrimStripsPadding` | app/play/page.js:106 | trimming white-space padding around a trimmed core gives back exactly that core |
| `Play.TrimIdempotent` | app/play/page.js:106 | trimming a trimmed reply changes nothing |
| `Play.FallbackIndex` | app/play/page.js:115-116 | `floor(random * n)` is a valid index into the n legal moves |
| `Play.FallbackReachesEveryIndex` | app/play/page.js:115-116 | every legal move can be the random fallback, for some draw in [0, 1) |
| `Play.ChooseAIMove` | app/play/page.js:101-122 | the chosen move is always legal; a trimmed reply that is legal is the chosen move; an illegal reply falls back to the randomly indexed legal move; a failed call or an empty legal-move set chooses nothing |
| `Play.PlaySession.constructor` | app/play/page.js:10-14 | the page starts at the starting position in easy mode, not started, with an empty history and the cursor at 0 |
| `Play.PlaySession.MakeAMove` | app/play/page.js:16-31 | an accepted move sets the history to the entries up to the cursor plus the new position, and puts the cursor on that last entry; a rejected move changes nothing; the result is the engine's |
| `Play.PlaySession.OnDrop` | app/play/page.js:33-48 | a drag counts only in a started game with White to move, promotes to a queen, and is accepted exactly when the engine accepts it; a refused drag changes nothing |
| `Play.PlaySession.HandleModeChange` | app/play/page.js:50-52 | changing difficulty sets the mode and changes no other field |
| `Play.PlaySession.HandleGameStart` | app/play/page.js:54-60 | start gives a started game at the starting position, with history `[start]` and cursor 0 |
| `Play.PlaySession.HandleGameExit` | app/play/page.js:62-67 | resign stops the game, resets the board, empties the history and sets the cursor to 0 |
| `Play.PlaySession.HandlePrevMove` | app/play/page.js:69-73 | in easy mode with the cursor above 0, the cursor moves back one and the board shows that entry; otherwise nothing changes; the cursor stays inside the history |
| `Play.PlaySession.HandleNextMove` | app/play/page.js:75-79 | in easy mode with a later entry, the cursor moves forward one and the board shows that entry; otherwise nothing changes; the cursor stays inside the history |
| `Play.PlaySession.AIMove` | app/play/page.js:81-134 | the AI moves only in a started game with Black to move. The applied move is `ChooseAIMove`'s, so it is always legal, and with a sound engine a chosen move is always applied. A failed oracle call changes nothing |
| `PuzzlePage.LastMoveLabel` | app/puzzle/page.js:123 | an undefined or empty last move shows as "None"; any other move shows as itself |
| `PuzzlePage.UserMoveAsWritten` | app/puzzle/page.js:27-33 | the recorded move is always undefined, as `move.san` of the dragged move object |
| `PuzzlePage.LastMoveLostAsWritten` | app/puzzle/page.js:27-33 | as written, a legal move "e4" still shows as "None"; the corrected record shows "e4" |
| `PuzzlePage.RecordedUserMove` | app/puzzle/page.js:30 | the corrected record displays the notation of the move played |
| `PuzzlePage.PuzzleSession.constructor` | app/puzzle/page.js:7-13 | no puzzles, cursor 0, starting board, empty move, message and hint, not loading |
| `PuzzlePage.PuzzleSession.LoadPuzzles` | app/puzzle/page.js:15-25 | a loaded list replaces the puzzles; the board moves to the first puzzle only when the list is not empty; a failed fetch changes nothing; the cursor stays 0 |
| `PuzzlePage.PuzzleSession.CheckMove` | app/puzzle/page.js:35-39 | the message becomes the fixed placeholder |
| `PuzzlePage.PuzzleSession.HandleMove` | app/puzzle/page.js:27-33 | (corrected; see Findings) a move the engine rejects changes nothing; an accepted move updates the board and sets the placeholder message, and records the move's notation where the code as written stores `undefined` |
| `PuzzlePage.PuzzleSession.NextPuzzle` | app/puzzle/page.js:41-52 | before the last puzzle: the cursor advances by one, the board loads that puzzle, and the move, message and hint are cleared. Otherwise: only the message changes, to "You've completed all puzzles!". The cursor stays inside the list |
| `PuzzlePage.PuzzleSession.ResetPuzzle` | app/puzzle/page.js:54-61 | with a puzzle under the cursor: the board goes back to that puzzle and the move, message and hint are cleared. Otherwise nothing changes. The cursor never moves |
| `PuzzlePage.PuzzleSession.GetHint` | app/puzzle/page.js:63-89 | with a puzzle under the cursor, the loading flag ends false on both paths, and the hint is the reply or the fixed apology. With none, the throw leaves the flag set |
| `OpeningsRoute.OrDefault` | app/api/openings/route.js:6-7 | a missing, non-numeric or zero parameter takes the default; any other value is kept; the result is never 0 when the default is not |
| `OpeningsRoute.Skip` | app/api/openings/route.js:24 | the skip offset is non-negative, a multiple of the page size, and page−1 page sizes |
| `OpeningsRoute.CeilDiv` | app/api/openings/route.js:35 | `totalPages * limit >= total`; `(totalPages - 1) * limit < total` when there are documents; 0 pages for none |
| `OpeningsRoute.PageSlice` | app/api/openings/route.js:27-32 | the page holds at most `limit` documents, exactly as many as remain from `skip`, and they are the collection's documents from `skip` on, in order |
| `OpeningsRoute.Get` | app/api/openings/route.js:4-63 | 400 "Invalid page or limit parameter" exactly when the defaulted page or limit is below 1; 500 exactly when the query is valid and the database fails; a 200 echoes page and limit, holds exactly the `limit` documents from position `(page - 1) * limit` (fewer at the end), and a ceiling page count |
| `OpeningsRoute.EveryOpeningOnItsPage` | app/api/openings/route.js:24-35 | every document appears on page `i / limit + 1`, which is within the page count, at position `i % limit` |
| `Learn.PrevTarget` | app/learn/page.js:283 | the previous control never goes below page 0, and goes back one page otherwise |
| `Learn.NextTarget` | app/learn/page.js:316-318 | the next control goes forward one page, or to the last page (`totalPages - 1`) when that would pass it, as after a failed fetch leaves one page; it stays inside the page range |
| `Learn.PrevDisabledIffNoMove` | app/learn/page.js:283-285 | the previous control is inert exactly when clicking it would not change the page |
| `Learn.NextDisabledAsWrittenIsWrong` | app/learn/page.js:316-320 | as written, Next is inert on page 0 of 100 though it would go to page 1, and live on the last page though it would stay |
| `Learn.NextDisabledIffNoMove` | app/learn/page.js:316-320 | with the corrected test, the next control is inert exactly when clicking it would not change the page |
| `Learn.KeepBelow` | app/learn/page.js:294 | the filter keeps exactly the numbers below the bound |
| `Learn.PageNumbers` | app/learn/page.js:288-310 | at most `min(5, totalPages)` numbers. All are in `[0, totalPages)`, consecutive and ascending, and the current page is among them. With the page past the third and more than five pages they are `page-2..page+2`, otherwise `0..4`, in both cases cut at `totalPages` |
| `Learn.PageLinks` | app/learn/page.js:295-307 | one link per window number, labelled number + 1, marked current exactly when it is the page |
| `Learn.ExactlyOneActiveLink` | app/learn/page.js:296-302 | on an existing page, exactly one link is marked current |
| `Learn.EllipsisIffPagesHidden` | app/learn/page.js:288-313 | the ellipsis is shown exactly when some page has no link |
| `Learn.Pagination` | app/learn/page.js:279-324 | (corrected; see Findings) with the Next test corrected to the last page, each control is inert exactly when it would not move (as written, Next tests `page === 0`); both targets stay inside the page range; the ellipsis marks hidden pages |
| `Learn.DisplayName` | app/learn/page.js:269-271 | names of at most 50 characters are shown unchanged; longer names become their first 47 characters plus "...", exactly 50 characters |
| `Learn.InitialPageText` | app/learn/page.js:86 | a missing or empty `page` parameter reads as "0"; any other value is kept |
| `Learn.RequestFor` | app/learn/page.js:63-65 | the request asks for API page `currentPage + 1` with limit 10 |
| `Learn.RequestServesItsSlice` | app/learn/page.js:63-65 | for page n ≥ 0, the route answers the page's request with 200 and the ten documents from position 10n |
| `Learn.OpeningsField` | app/learn/page.js:66-67 | `data.openings` is present exactly for a page body, and is that body's openings |
| `Learn.LearnPage.constructor` | app/learn/page.js:43-57 | empty openings, page 0, no pages, loading |
| `Learn.LearnPage.FetchOpenings` | app/learn/page.js:60-75 | requests API page `currentPage + 1`. On a reply it sets the body's openings and 100 pages; on a failure it sets 1 page and keeps the openings. The loading flag always ends false |
| `Learn.LearnPage.HandlePageChange` | app/learn/page.js:112-119 | the page becomes the new page, and its openings are fetched as `FetchOpenings` does |
| `Learn.LearnPage.Mount` | app/learn/page.js:78-89 | the page becomes the parsed `page` parameter, and its openings are fetched |
| `Auth.SplitOnSpace` | lib/auth.js:6 | `split(" ")` gives at least one piece, no piece has a space, and there is one piece exactly when the text has no space |
| `Auth.SplitFields` | lib/auth.js:6 | the first piece is the text before the first space; the second is the text between the first and the next space |
| `Auth.TokenOf` | lib/auth.js:5-6 | no header gives no token; an empty header gives the empty token |
| `Auth.TokenAfterFirstSpace` | lib/auth.js:6-8 | the token is the text after the header's first space, up to the next space; a header with no space yields no usable token |
| `Auth.HeaderFields` | lib/auth.js:6 | a header `scheme + " " + field + rest`, with no space in scheme or field, carries `field` |
| `Auth.BearerExamples` | lib/auth.js:6-10 | "Bearer abc" and "Bearer abc def" carry "abc"; "Bearer" has none; "Bearer " and a double space give the empty, falsy token |
| `Auth.Authenticate` | lib/auth.js:4-19 | a missing or empty token gives 401 "No token provided". A failed verification gives 401 "Invalid token". Otherwise the handler's result, with the decoded user, is returned unchanged |
| `Auth.RejectionIgnoresHandler` | lib/auth.js:8-18 | a rejected request never reaches the handler: the answer is the same whatever handler is wrapped |

## Left out

- Chess rules: chess.js is the abstract `Engine`. `new Chess(fen).fen()` is
  taken to give back the same FEN. An illegal move is one that `apply`
  refuses, whether chess.js returns null or throws.
- Puzzle FENs are assumed valid. With an invalid FEN, `new Chess(fen)`
  throws. In `nextPuzzle` that throw comes after `setCurrentPuzzleIndex`
  (app/puzzle/page.js:44-45), so the cursor would move while the board,
  move, message and hint stay. The model does not capture that case.
- The OpenAI requests (app/api/openai/route.js and
  app/api/openai-stream/route.js) and the prompt texts: a reply is
  `Failed` or its text. A non-ok status, a network error and a body without
  a `response` all count as `Failed`.
- `PuzzlePage.PuzzleSession.GetHint`: the puzzle page stores `data.response`
  without checking it (app/puzzle/page.js:81-82), and the OpenAI route can
  return a null `content`. The page then stores a null hint, which shows
  nothing. The model has no null reply: such a body is `Failed`, and the
  model shows the apology instead.
- `Math.random` is the parameter `r` in [0, 1).
- Scheduling:
  - The 300 ms `setTimeout` after a drop and the effect that starts the AI
    on Black's turn are left out. `AIMove` is an operation the environment
    calls.
  - Stale closures and concurrent updates are left out too.
- `Play.PlaySession.MakeAMove`: requires a started game. Its only callers,
  the drop and the AI path, check `gameStarted` first.
- `Play.IsJsSpace`: uses the ECMAScript white-space and line-terminator
  characters as of this writing. Later Unicode additions to the space
  separators are not followed.
- MongoDB: lib/mongodb.js, the store wrappers (game-state, user, login,
  register) and app/api/puzzles/route.js are not part of this model.
  - The "moves" collection is a sequence; `Failing` stands for any thrown
    database error.
  - Counting documents is the sequence length.
- `jwt.verify` is the parameter `verify`. The other fields of the request
  object are not modelled.
- `parseInt`:
  - The route takes the parsed `page`/`limit` as `Option<int>` (`None` is
    NaN).
  - The learn page takes the parsed `page` as an integer. A non-numeric
    parameter, which makes the page NaN, is not modelled.
- `Learn.RequestServesItsSlice`: assumes the server parses the `page=`
  text the page sends back to the same integer.
- `Math.ceil` and the skip product are computed in floating point in the
  source; the model uses exact integers (equal below 2^53).
- `Learn.DisplayName`: counts characters, where JavaScript counts UTF-16
  code units. The two agree for names without astral-plane characters.
- Other learn page handlers (`fetchUserData`, `handleGameChange`,
  `handleOpeningClick`, `handleSignOut`) and every `router.push`:
  navigation and account lookup, not pagination.
- `PuzzlePage.PuzzleSession.LoadPuzzles`:
  - runs once, at mount (cursor 0).
  - A reply whose `entries` is missing, which the page would store as
    `undefined` before throwing, is not modelled.
- UI files (app/page.js, app/home/page.js, app/layout.js,
  components/ui/Loading.jsx, next.config.mjs), JSX, styling and theming.

## Findings

| source | as written | input that shows it | evidently intended | confidence | as-written member | corrected member |
|---|---|---|---|---|---|---|
| app/puzzle/page.js:30 | `setUserMove(move.san)` reads `san` from the `{from, to, promotion}` object the board passes in. That object has no such property, so the last move is always undefined and shows as "None" | a legal drag e2-e4 that chess.js records as "e4"; "Your last move" still reads "None" | record the notation of the move chess.js played (the `san` of the object `game.move` returns) | high; not executed | `PuzzlePage.LastMoveLostAsWritten` | `PuzzlePage.PuzzleSession.HandleMove` |
| app/learn/page.js:319 | the Next control is made inert with `page === 0`, the same test as the Previous control | page 0 of 100: Next is inert although it would go to page 1; page 99 of 100: Next is live although it stays on page 99 | inert on the last page (`page >= totalPages - 1`) | high; not executed | `Learn.NextDisabledAsWrittenIsWrong` | `Learn.NextDisabledIffNoMove`, `Learn.Pagination` |
