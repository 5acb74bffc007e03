# Ghost track library sync, modelled in Dafny

The program forces a music-streaming client to resync its "Liked Songs"
library across devices. It adds one track the user has not liked to the
library and removes it again. This project models and proves the three
pieces of decision logic behind a run:

- **Token acquisition** (`token.dfy`, module `Token`). The run first redeems
  the stored refresh token at the provider's token endpoint. If that gives no
  access token, the user signs in through the browser once, the callback is
  checked against the OAuth2 `state`, and the authorization code is
  exchanged. If there is still no access token, the run ends. The callback
  handler is a class whose fields the handler updates: the captured code and
  the completion flag.
- **Track search and sync** (`update.dfy`, module `Update`). Each attempt
  draws a random keyword index and searches the catalogue. It keeps the
  items that are not local files and are available in the user's market,
  then asks which of those are already liked. The first candidate answered
  `false` is taken. The loop runs at most 31 times. A found track is added
  (PUT) and then removed (DELETE) on the same URL.
- **The `.env` file** (`environment.dfy`, module `Environment`). `LoadDotEnv`
  reads `key=value` lines into the process environment. `UpdateEnvVar`
  rewrites the first line that starts with `key=` as `key='value'`, or
  appends `key=value` when no line does.

Supporting modules:

- `Sequences.IndexOf` models Go's `slices.Index` and the first-`=` split of
  `strings.SplitN`.
- `Strings` models `strings.Trim`, `strings.TrimSpace` and `strconv.Itoa`.
- `Wrappers` holds `Option`.

Every network exchange is an input value. The token endpoint is two
functions from the grant sent to the reply. The catalogue's replies are
functions of the attempt number, and the add and remove replies are single
values. The generated `state` and the browser's callback request are
parameters. Files are sequences of lines, and the process environment is a
map.

Notes on the code:

- The search loop's condition `attemptCount <= maxAttempts` allows 31
  attempts, while `maxAttempts` and the exhaustion message say 30
  (`Update.Update` ensures `attempts <= MaxAttempts + 1`, and exhaustion
  happens exactly at 31).
- A non-200 reply to the PUT or the DELETE ends the run with `getJSON`'s
  generic status message (`Fatal(BadStatus(..))`). Only a transport error
  produces the "Failed to add track" and "Failed to remove track" messages.
- The token endpoint's status code is never checked. An error reply decodes
  to empty tokens and is handled like a rejected refresh.

## Model

| member | source | states |
|---|---|---|
| Sequences.IndexOf | src/update.go:126 | `slices.Index`: None exactly when the element is absent; otherwise the first position holding it |
| Strings.Trim | src/environment.go:34 | `strings.Trim`: the result is no longer than the input, and neither of its ends is in the cut set |
| Strings.TrimLeftIsSuffix | src/environment.go:23 | the left trim leaves a suffix of the input and drops only cut characters |
| Strings.TrimRightIsPrefix | src/environment.go:23 | the right trim leaves a prefix of the input and drops only cut characters |
| Strings.TrimSameLength | src/environment.go:34 | a trim that removes nothing returns its input |
| Strings.TrimDrawsFrom | src/environment.go:33-34 | a trimmed string holds only characters of the input |
| Strings.TrimTwice | src/environment.go:33 | trimming is idempotent, so re-trimming the already-trimmed key changes nothing |
| Strings.TrimLeftConcat | src/environment.go:34 | a left trim of s + t reaches into t only once all of s was trimmed |
| Strings.TrimWrapped | src/environment.go:34 | a value wrapped in one cut character on each side trims to the trimmed value |
| Strings.TrimSpace | src/environment.go:23 | `strings.TrimSpace`: the result is no longer than the input, and neither end is white space |
| Strings.DecimalString | src/environment.go:30 | `strconv.Itoa` of a count is a non-empty string of decimal digits without a leading zero, unless it is `0` |
| Strings.DecimalRoundTrip | src/environment.go:30 | the numeral in the error message reads back as the count |
| Environment.SplitAt | src/environment.go:28-34 | splitting a trimmed line at its first `=` gives a trimmed key without `=`, and a value with no quote at either end |
| Environment.ParseLine | src/environment.go:23-34 | a line is skipped iff it is blank or a `#` comment after trimming; it is malformed iff it is otherwise without `=`; an assignment has a trimmed, `=`-free key and a value with no quote character at either end |
| Environment.SplitsAtFirstEquals | src/environment.go:28-34 | an assignment splits the trimmed line at its first `=`, so the value may contain `=` |
| Environment.Setenv | src/environment.go:35 | `os.Setenv`: an accepted name and value (name non-empty, no `=` or NUL; value without NUL) is set; a refused one leaves the environment unchanged, and the error is ignored; other variables are untouched |
| Environment.LoadEntries | src/environment.go:21-38 | the load of a line sequence completes iff no entry is malformed, and the count never decreases |
| Environment.Load | src/environment.go:21-38 | loading a file completes iff no line is malformed |
| Environment.InvalidLineMessage | src/environment.go:30 | the error reads `Line `, the count's numeral, ` is invalid.`; the numeral is all decimal digits with no leading zero (unless it is `0`), and it reads back as the count |
| Environment.LoadDotEnv | src/environment.go:13-41 | the loop leaves the environment the line-by-line load gives, and returns the "Line n is invalid." error exactly when that load halts |
| Environment.SkippedLineIgnored | src/environment.go:24-26 | removing a blank or comment line does not change the load |
| Environment.LoadAppend | src/environment.go:22-38 | loading one more line continues from where the load of the lines before it ended |
| Environment.HaltCountsAssignments | src/environment.go:21-37 | the load halts iff some line is malformed, and the number in the error counts the assignments before the first malformed line, not physical lines |
| Environment.LastAssignmentWins | src/environment.go:35 | after a successful load, a key holds the value of the last accepted assignment to it, or what it held before if none |
| Environment.LoadReplace | src/environment.go:35 | replacing the value of an assignment that no later line overrides changes only that key's final value |
| Environment.FirstMatch | src/environment.go:59 | the first line with the raw prefix `key=`, and no earlier line has it |
| Environment.Rewritten | src/environment.go:55-76 | the first matching line becomes `key='value'` and all other lines are kept in order; with no match, `key=value` is appended, so the length grows by one |
| Environment.UpdateEnvVar | src/environment.go:44-78 | the loop writes exactly the rewritten lines |
| Environment.RewriteTwice | src/environment.go:59-76 | a second update of the same key rewrites the line the first one wrote or appended |
| Environment.ParseKeyed | src/environment.go:23-34 | for a key that LoadDotEnv reads back unchanged, every line with the raw prefix `key=` parses as an assignment to key. The converse fails: ` key=v` or `key =v` assigns key but is not rewritten |
| Environment.ParseQuoted | src/environment.go:60 | the quoted line written in place of a match reads back as key = value |
| Environment.ParsePlain | src/environment.go:75 | the appended unquoted line reads back as key = value |
| Environment.RoundTrip | src/environment.go:43-78 | loading the rewritten lines succeeds iff loading the original does; it then gives the original result with key set to the new value, and otherwise halts at the same count |
| Token.RedirectUrisAgree | src/token.go:41 | the `redirect_uri` of the authorization request equals the one in the code-exchange form (line 88): `http://` + host + `/callback` |
| Token.AuthorizeQuery | src/token.go:37-42 | the authorization request asks for a code and carries the client ID, the scope, the redirect URI and the state |
| Token.CodeGrantForm | src/token.go:85-90 | the code grant carries grant type `authorization_code`, the code, the redirect URI and the client credentials |
| Token.RefreshGrantForm | src/token.go:112-116 | the refresh grant carries grant type `refresh_token`, the stored refresh token and the client credentials, and no redirect URI |
| Token.Get | src/token.go:63-70 | the first-value reading rule of `url.Values.Get`, which `r.FormValue` follows and which the query and form rows use to state their contents: a value is found iff a parameter has the name, and it is one given for that name |
| Token.GetFirst | src/token.go:63-70 | the value read is the one of the first parameter with the name |
| Token.CheckCallback | src/token.go:63-70 | a callback is accepted iff its state equals the one sent, and then its code is the authorization code; otherwise a state mismatch ends the run |
| Token.CallbackListener.Handle | src/token.go:61-74 | answers 400 and changes nothing on a state mismatch; on a match, answers 200, records the code and signals completion |
| Token.SignInToSpotify | src/token.go:30-82 | builds the authorization query carrying the state, and returns the result of checking the one callback |
| Token.RequestTokensWithRefreshToken | src/token.go:111-140 | an unsent request ends the run; otherwise the reply's access token is returned, with the old refresh token kept exactly when the reply has none |
| Token.RequestTokensWithCode | src/token.go:84-109 | an unsent request ends the run; otherwise the reply is returned unchanged, with no fallback |
| Token.GetTokens | src/token.go:142-159 | a returned access token is never empty; a refresh request that cannot be sent ends the run; calls are a refresh, then a sign-in iff the refresh gave no access token, then a code exchange iff the callback state matched |
| Token.RefreshSuccessSkipsSignIn | src/token.go:147-153 | a refresh that yields an access token is the answer, and no sign-in takes place |
| Token.RejectedRefreshSignsInOnce | src/token.go:150-156 | a refresh without an access token leads to exactly one sign-in, and the code exchange's reply replaces the refresh result or the run fails |
| Token.RefreshPathKeepsRefreshToken | src/token.go:135-138 | on the refresh path, a non-empty stored refresh token is never replaced by an empty one |
| Token.CodePathMayReturnEmptyRefreshToken | src/token.go:152 | for example, a sign-in run whose code-exchange reply has no refresh token returns an empty refresh token, although a refresh token was stored |
| Update.GetJSON | src/update.go:56-71 | a status other than 200 is fatal; a transport error, or a body that does not decode into a supplied target, is an error; the body is decoded only when there is a target |
| Update.KeywordIndex | src/update.go:89-96 | the keyword index lies in [0, number of keywords) on both the crypto and the fallback branch |
| Update.PlayableIndices | src/update.go:111-117 | the positions of exactly the items that are not local and list the market, in increasing order |
| Update.CandidatesArePlayableItems | src/update.go:111-117 | the candidate list is the playable items in search order, each rendered as `spotify:track:` + ID |
| Update.CandidateIsPlayable | src/update.go:113-116 | every candidate is the URI of a non-local item available in the market |
| Update.Candidates | src/update.go:111-117 | the candidate list is no longer than the search results, and each candidate starts with `spotify:track:` |
| Update.FilterCandidates | src/update.go:111-117 | the filter loop builds exactly the candidate list |
| Update.Select | src/update.go:126-127 | picks the candidate at the first `false` answer; nothing iff no answer is false; an index past the candidates otherwise |
| Update.Attempt | src/update.go:86-131 | an attempt that finds a track yields a non-empty URI, which stops the loop |
| Update.Pulse | src/update.go:140-158 | PUT comes first and DELETE is issued only after a 200 to it; both carry the selected URI; the run succeeds iff both get 200; a non-200 reply to either ends the run with that status; a transport error of either half names that half |
| Update.Update | src/update.go:73-163 | at most 31 attempts, all but the last finding nothing; exhaustion happens only after the 31st and issues no mutation; an error stops the run without mutation; a found track is added and then removed |
| Update.FoundTrackIsUnlikedAndPlayable | src/update.go:111-128 | a found track is the candidate at the first `false` answer, and it is a non-local item available in the market from that attempt's search |
| Update.FirstUnlikedIsFound | src/update.go:124-128 | when the first `false` membership answer is at a candidate's position, the attempt finds that candidate |
| Update.AllLikedIsMissed | src/update.go:124-131 | when every membership answer is true, the attempt finds nothing and the loop continues |
| Update.MembershipErrorIsMissed | src/update.go:125 | when the membership call fails by transport or decoding, the attempt finds nothing and the loop continues |

## Left out

- HTTP transport, request construction and headers, URL and query encoding, and JSON decoding: replies are given as decoded values (`Reply`, `Exchange`).
- `http.NewRequest` failures on the token endpoint ("Failed to create request"): the URL is a constant, so this case is not modelled.
- `net.Listen` failure, `http.Serve`, the goroutines and the `done` channel rendezvous: the callback is a single request handled by `CallbackListener.Handle`, and completion is the `done` field.
- `rand.Text()` for the state, and the distributions of `crypto/rand` and `math/rand`: the state and the draws are inputs.
- Update.KeywordIndex: the draws are reduced into range with `%`, which stands for the libraries' promise to return a value below the bound. The uniformity of the draw is not modelled.
- Opening the browser, printing progress messages, and `time.Sleep`: these are I/O and timing only.
- File open, read and write: a `.env` file is a sequence of lines. The loss of a trailing newline by `strings.Join`, scanner errors and the scanner's line-length limit are not modelled.
- The contents of `SearchTerms`: only its length (`termCount`) matters.
- The process environment outside the loaded map, and `main.go`, which reads the configuration and calls the three components.
- Environment.RoundTrip: the result is stated for keys and values that `LoadDotEnv` reads back unchanged, and for files where no later line assigns the key. Such keys and values have no surrounding white space or quotes, no NUL and no newline, and the key does not start with `#`. Without these conditions the round trip does not hold. For example, a value with a newline is written by `strings.Join` as two lines, and the second one reads back as a malformed line.
- Byte strings: Go strings are byte sequences, while the model's strings are sequences of Unicode code points. Invalid UTF-8 input to `TrimSpace`, `Trim` or the `key=` prefix test cannot be represented.
