# pickem_alerts — a verified model of the daily best-bet mailer

`main.py` polls an odds provider once per calendar day (US/Eastern), picks the
most heavily favoured moneyline price among that day's MLB games, and mails it
through Gmail. This project models its three pieces of decision logic in Dafny
and proves what they promise:

- **Odds** (`odds.dfy`): the odds response as games → bookmakers → markets →
  outcomes; the flattening comprehension that keeps only each game's first
  bookmaker's first market; and the `idxmin` selection of the best bet, with
  first-occurrence tie-breaking. Indexing a game with no bookmaker or no market
  (an `IndexError` in the program) and an empty slate (no `price` column to
  minimise) are explicit `Failure` results, not preconditions.
- **Scheduler** (`scheduler.dfy`): the `new_day` / `current_date` loop of
  `main` as a step function over a state, folded over a sequence of clock
  observations. Each iteration is given the two dates its clock reads return:
  the one the body reads when it runs (line 152) and the one read when
  `new_day` is recomputed (line 161). The body itself is an abstract "fire"
  event carrying the date it processes.
- **Auth** (`auth.dfy`): the branch of `authenticate_with_google` that chooses
  between reusing, refreshing and interactively re-acquiring the credential,
  and whether the token file is written.
- `results.dfy` holds the shared `Option` and `Result` types.

At line 161 the program assigns a boolean to `new_day` (whether today's date
is strictly later than `current_date`), while `current_date` keeps the last
processed date and is assigned only inside the `if` at line 152. The model
keeps the same two variables with the same meanings.

## Model

| member | source | states |
|---|---|---|
| Odds.Flatten | main.py:136-138 | succeeds exactly when every game has a first bookmaker with a first market; otherwise fails at the first game that lacks one, naming it and saying whether the bookmaker or the market was missing, with every earlier game well formed |
| Odds.GameError | main.py:137 | a game with no bookmaker fails at `bookmakers[0]` and one whose first bookmaker has no market fails at `markets[0]`; the error names the game's position |
| Odds.FlattenSingle | main.py:137 | the slate of one game is exactly the outcome list of its first bookmaker's first market |
| Odds.FlattenAppend | main.py:137 | the slate is the in-order concatenation over games: the slate of `a + b` is the slate of `a` followed by the slate of `b` |
| Odds.FlattenLength | main.py:136-138 | the slate's length is the sum of the lengths of the games' first-market outcome lists |
| Odds.FlattenMembers | main.py:137 | an outcome is on the slate if and only if some game's first bookmaker's first market lists it |
| Odds.FlattenIgnoresOtherBooks | main.py:137 | bookmakers after the first and markets after the first contribute nothing: games agreeing on their first market's outcomes give equal slates |
| Odds.FirstMinIndex | main.py:154 | on a non-empty slate, the position `idxmin` lands on: no price is below it and every earlier price is strictly above it |
| Odds.FirstMinUnique | main.py:154 | at most one position is a first-occurrence minimum, so that property determines the selection |
| Odds.SelectBest | main.py:154 | fails with `EmptySlate` exactly on an empty slate; otherwise returns a record of the slate whose price is at most every record's price and which is the first record with that minimum |
| Odds.BestBet | main.py:136-154 | flatten then select: a success is the first-occurrence minimum of the flattened slate; `EmptySlate` exactly when all games are well formed and list no outcome; an indexing failure exactly when some game is malformed |
| Odds.ThreeTeamExample | main.py:154 | prices -150, +130, -200 select the -200 record |
| Odds.TieExample | main.py:154 | two records at -150: the earlier one is selected |
| Scheduler.Step | main.py:149-161 | one loop iteration: it fires exactly when `new_day` is set and then records the date read in the body as the last processed date; otherwise the last processed date is unchanged; the next `new_day` holds exactly when that date is strictly earlier than the date read at the end |
| Scheduler.Trace | main.py:148-162 | one step result per observed iteration, and after every iteration the last processed date is defined |
| Scheduler.TraceSteps | main.py:149-162 | iteration `i` of a run starts from the state iteration `i - 1` left |
| Scheduler.FirstIterationFires | main.py:148-152 | after a start the first iteration fires whatever the clock says, and records the date it read |
| Scheduler.FiresIff | main.py:150-161 | every later iteration fires if and only if the previous iteration's end reading is strictly later than the last processed date; firing records the date read in the body, not firing keeps the old date |
| Scheduler.LastNonDecreasing | main.py:150-161 | with a clock that never goes backwards, the last processed date never decreases over a run |
| Scheduler.FireDatesIncrease | main.py:150-161 | with a clock that never goes backwards, each firing is for a date strictly later than every earlier firing |
| Scheduler.AtMostOncePerDate | main.py:150-161 | with a clock that never goes backwards, no two iterations fire for the same date |
| Scheduler.CatchesUp | main.py:150-161 | a date read at the end of an iteration is never later than the last processed date after the next iteration: no observed day is left unprocessed |
| Scheduler.SameDayExample | main.py:150-161 | two iterations on the same date: the second does not fire |
| Scheduler.BackwardClockRefires | main.py:150-161 | if the clock steps back across midnight the body fires twice for one date, so the at-most-once property needs a clock that does not go backwards |
| Auth.Authenticate | main.py:33-53 | reuse exactly when a saved credential is valid, with no write; refresh exactly when a saved credential is invalid, expired and has a refresh token; the interactive flow in every other case, including a missing token file; both non-reuse paths write the resulting credential to the token file exactly once |
| Auth.FileHoldsCredential | main.py:33-53 | after authentication the token file holds exactly the credential handed to the mail client, and it was written at most once |
| Auth.FileAfter | main.py:49-51 | the token file is unchanged when nothing was written and otherwise holds the last credential written, since the file is opened for overwriting |
| Auth.Reload | main.py:36-37 | reloading the token file keeps its refresh token, with `valid` and `expired` recomputed at load time |
| Auth.LaterRunAvoidsBrowser | main.py:33-53 | after a run that saved a credential with a refresh token, a later run whose reloaded credential is valid or expired never takes the interactive flow: it reuses exactly when valid and refreshes otherwise |
| Auth.EmptyRefreshTokenIsInteractive | main.py:40 | an expired credential whose refresh token is the empty string takes the interactive flow, following Python truthiness |

## Left out

- The HTTP request and JSON decoding in `get_spreads` (main.py:124-135): network I/O; the decoded response is the input `seq<Game>`. Missing JSON keys (`KeyError`) are not modelled; the datatypes always have the fields.
- The day window (main.py:120-122): it depends on the host's local time zone and on `pytz`; dates are day numbers given as inputs.
- Outcome fields other than `name` and `price` (such as `point`), and the `str(best_bet)` message body: formatting only.
- `create_email_message`, `send_email`, the Gmail `build` call and the swallowed `HttpError` (main.py:56-100, 157-159): library calls with no decision logic of their own.
- OAuth library internals (main.py:36-51): loading the token file, `refresh`, the browser flow and the serialisation are external; their results are inputs. The `valid` and `expired` flags are taken as given, so the model does not rely on the library keeping a valid credential unexpired. An unreadable token file raises in the program and is not modelled.
- Environment variables, `sleep(60)` and `datetime.now` (main.py:144-146, 152, 161-162): the clock is the sequence of observations.
- Error propagation out of the loop body: any exception there (a malformed game, an empty slate, a failed request) ends the process; the model returns a `Failure` from the selection and does not model the termination or a restart beyond `Scheduler.Start`.
- Auth.LaterRunAvoidsBrowser: assumes the reloaded credential is valid or expired; how the OAuth library derives those flags from the saved token, its expiry and the clock is not modelled, so a reloaded credential that is neither still goes to the interactive flow.
- Scheduler.CatchesUp: proves only that each observed date is caught up with; it does not prove that every calendar date is fired for, since a clock that passes two midnights between two readings skips a date.
