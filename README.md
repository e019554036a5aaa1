# Cloudflare DNS chat bot: the session state machine and its command rules

`index.js` is a Telegram bot. A user uses it to manage the DNS records of one Cloudflare zone.
The bot keeps a process-wide map `userSession` from chat id to a session `{step, accountId?, zoneId?, apiToken?}`.

- `/start` (re)creates the chat's session in step `cf_account_id`.
- Each later plain-text message is trimmed and stored as the account id, then the zone id, then the API token.
- After the token, the session moves to `menu`.

The DNS commands `/addcf`, `/listcf`, `/delcf` and `/updatecf` first run a setup guard. The guard checks that a session exists and that its zone id and token are non-empty. The command then builds its Cloudflare request. `/cek` resolves eight fixed subdomains of a pattern and reports one line per subdomain.

This project models that logic in Dafny:

- `text.dfy` (module `Text`): JavaScript's `trim` and `startsWith`, and the white-space and line-terminator classes of ECMAScript.
- `patterns.dfy` (module `Patterns`): the command patterns as string functions. `exec` on an unanchored pattern that begins with a literal returns the captures at the leftmost position where the literal occurs and the rest of the pattern matches. The captures are the greedy ones: `.+` runs to the end of the line, `(.+) (.+)` splits at the last space that has a character after it, and `[^\s]+` runs to the next white space.
- `sessions.dfy` (module `Sessions`): the `Step` and `Session` datatypes and the setup guard `SetupReady`.
  - The pure transition functions are `Onboard`, `Receive` and `Start`.
  - The class `SessionStore` holds the map. Its methods `OnStart` and `OnMessage` update the map in place, and their contracts tie each new map to the transition functions.
- `commands.dfy` (module `Commands`): what each DNS command handler does with a message. It does not match, it answers "set up first", or it issues a list of provider requests. A request is a value that carries its payload.
- `wildcard.dfy` (module `Wildcard`): the `/cek` pattern, the ordered candidate names and the report loop. The result of `dns.resolve` is a parameter.
- `wrappers.dfy` (module `Wrappers`): `Option`.

Some behaviour of `index.js` is easy to miss, and the model keeps it:

- Every DNS operation is a one-line command with its arguments on the same line.
- `/addcf` sends no `ttl`, and it does not trim its arguments; `/delcf` and `/updatecf` trim theirs.
- `/updatecf` sends its PUT only after its GET succeeded.
- `/cek` has no setup guard.

## Model

| member | source | states |
|---|---|---|
| Sessions.SessionStore.OnStart | index.js:17-19 | the chat's session becomes exactly `{step: cf_account_id}`, earlier credentials are dropped, every other chat is unchanged, and all sessions stay consistent |
| Sessions.SessionStore.constructor | index.js:6 | the store starts empty (`userSession = {}`) and consistent |
| Sessions.SessionStore.OnMessage | index.js:29-70 | the new map is `Receive` of the old one: trimmed text, commands and session-less chats ignored, one onboarding step otherwise; consistency is kept |
| Sessions.SessionStore.Lookup | index.js:36 | the chat's session exactly when the map has one |
| Sessions.StartRequested | index.js:17 | `/start` runs exactly when the text contains `/start` anywhere (unanchored pattern) |
| Sessions.Start | index.js:19 | the chat maps to the fresh session; all other entries are kept |
| Sessions.SetupReady | index.js:77 | the setup guard: a session exists and its zone id and API token are both present and non-empty (JavaScript truthiness of a string); the same test is at lines 117, 153 and 185 |
| Sessions.Onboard | index.js:39-69 | the transition table: `cf_account_id` stores the text as account id and moves to `cf_zone_id`, `cf_zone_id` stores the zone id and moves to `cf_token`, `cf_token` stores the token and moves to `menu`, `menu` changes nothing; hence in an onboarding step one more credential is held and none held before changes, and step/field consistency is preserved |
| Sessions.Receive | index.js:29-70 | no chat is added or removed and no other chat changes; the map is unchanged for text whose trimmed form starts with `/`, for a chat with no session and for a chat in `menu`; otherwise the chat's session is `Onboard` of the trimmed text |
| Sessions.ReceiveKeepsConsistent | index.js:39-69 | every message keeps every session's fields exactly those its step implies |
| Sessions.ReadyOnlyInMenu | index.js:77 | a consistent session passes the setup guard only in `menu` |
| Sessions.StartRevokesSetup | index.js:19 | right after `/start` the guard fails, whatever the chat held before |
| Sessions.OnboardingRun | index.js:17-69 | `/start` then three plain texts leave the chat in `menu` with the three trimmed texts as account id, zone id and token, and change no other chat |
| Sessions.OnboardingRunReady | index.js:77 | after that run the guard passes iff the trimmed zone id and token are both non-empty |
| Sessions.OnboardingExample | index.js:17-69 | start, "A1", "Z1", "T1" gives `{menu, A1, Z1, T1}`, which passes the guard |
| Sessions.Verbatim | index.js:31-34 | a one-word credential that does not start with `/` is stored exactly as typed |
| Text.TrimStart | index.js:31 | the result is a suffix of the input that does not start with white space |
| Text.TrimEnd | index.js:31 | the result is a prefix of the input that does not end with white space |
| Text.TrimStartDropsSpace | index.js:31 | what is dropped at the front is all white space |
| Text.TrimEndDropsSpace | index.js:31 | what is dropped at the back is all white space |
| Text.Trim | index.js:31 | the result neither starts nor ends with white space |
| Text.TrimSlices | index.js:31 | the result is a contiguous slice of the input with only white space before and after it |
| Text.StartsWith | index.js:34 | `startsWith`: the prefix is no longer than the string and agrees with it character by character |
| Text.TrimPadded | index.js:31 | trimming a string with non-blank ends padded by any white space gives that string back |
| Text.TrimIdempotent | index.js:31 | trimming twice equals trimming once |
| Text.TrimNoSpace | index.js:231 | a string without white space is unchanged by trim |
| Patterns.SearchFrom | index.js:74 | the returned position is a match, and no earlier position from the start point is; no position matches when none is returned |
| Patterns.Exec | index.js:74 | the pattern fails exactly when no position matches; otherwise the result is the tail's captures at the leftmost matching position |
| Patterns.ExecAtStart | index.js:74 | a text that begins with the literal and whose rest the tail accepts yields the tail's captures on that rest |
| Patterns.ExecAnyTail | index.js:114 | a pattern with nothing after its literal matches iff the literal occurs in the text |
| Patterns.Line | index.js:149 | `.+` reaches exactly to the first line terminator or the end |
| Patterns.Word | index.js:229 | `[^\s]+` reaches exactly to the first white space or the end |
| Patterns.OneArg | index.js:149 | `(.+)` matches iff the rest starts with a character other than a line terminator, and captures the whole line |
| Patterns.LastSplit | index.js:74 | the greatest cut position up to the bound, and no cut above it; none when no cut exists |
| Patterns.TwoArgs | index.js:74 | both groups non-empty, joined by a space they make up the line, the second holds no space except as its last character; no match iff the line has no cut |
| Patterns.TwoArgsOfJoin | index.js:74 | a line `a + " " + b` with `b` free of spaces splits into `a` and `b` |
| Patterns.LineOfJoin | index.js:74 | a one-line string followed by a line terminator or the end is the whole line |
| Patterns.WordOfJoin | index.js:229 | a white-space-free string followed by white space or the end is the whole capture |
| Commands.AddCf | index.js:74-91 | no match iff the pattern fails; "set up first" iff it matches and the guard fails; otherwise exactly one create call, authorised by the session's non-empty zone id and token, whose body is `{type:'A', name, content, proxied:false}` with no ttl, `name` and `content` being the two captures untrimmed |
| Commands.AddCfArgs | index.js:74 | the two captures of `/\/addcf (.+) (.+)/`, untrimmed as lines 81-82 use them |
| Commands.NewARecord | index.js:87-92 | the create body: type `A`, the given name and content, `proxied: false`, no `ttl` |
| Commands.AddCfTyped | index.js:74-91 | `/addcf <name> <content>` with a content that has no space except possibly a trailing one posts `{type:'A', name, content, proxied:false}` with both parts exactly as typed |
| Commands.AddCfKeepsSpaces | index.js:81-82 | the arguments are not trimmed: `/addcf a  b` posts the name `"a "` |
| Commands.AddCfTrailingSpace | index.js:81-92 | nor is the content: `/addcf a b ` posts the content `"b "` |
| Commands.AddCfExample | index.js:61 | the menu's example line `/addcf *.domain.com 1.2.3.4` posts an A record for `*.domain.com` with content `1.2.3.4` |
| Commands.ListCf | index.js:114-129 | runs iff the text contains `/listcf`; "set up first" iff the guard fails; otherwise one list call with the session's zone id and token, asking for one page of 100 records |
| Commands.IsListCf | index.js:114 | whether `/\/listcf/` matches the text |
| Commands.DelCf | index.js:149-165 | no match iff `(.+)` fails; "set up first" iff the guard fails; otherwise one authorised delete call whose record id is the `(.+)` capture trimmed |
| Commands.DelCfArg | index.js:149 | the capture of `/\/delcf (.+)/`, before the trim of line 151 |
| Commands.DelCfTyped | index.js:149-159 | `/delcf <id>` deletes the record `id` trimmed |
| Commands.UpdateCfArgs | index.js:180-183 | matches iff `/\/updatecf (.+) (.+)/` does, and yields the two captures each trimmed |
| Commands.UpdateCfCaptures | index.js:180 | the two captures of `/\/updatecf (.+) (.+)/`, untrimmed |
| Commands.MergeContent | index.js:200-206 | the update body is the fetched record's fields with only the content replaced; with the same content it is the record's own fields |
| Commands.MergeChangesOnlyContent | index.js:191-206 | storing the merged body changes only the record's content, and storing it again changes nothing |
| Commands.UpdateCf | index.js:180-219 | no match iff the pattern fails; "set up first" iff the guard fails; otherwise an authorised GET of the trimmed record id, followed (only when the GET returned the record) by a PUT under that id of the fetched record's type, name, ttl and proxied with the trimmed new content |
| Commands.UpdateCalls | index.js:192-213 | the GET of the record id and, only when the GET returned the record, the PUT of that record's fields with the new content under the same id, each with the given credentials |
| Commands.UpdateCfTyped | index.js:180-206 | `/updatecf <id> <content>` with a content free of white space fetches and updates record `id` trimmed, with exactly that content |
| Commands.UpdateCfArgsTyped | index.js:180-183 | that command line captures the trimmed id and the content |
| Commands.UpdateCfTrimsContent | index.js:183 | the new content is trimmed: `/updatecf <id> <content> ` sends `<content>` without the trailing space |
| Commands.UpdateCfCapturesTyped | index.js:180 | a typed line `/updatecf <id> <content>` captures `<id>` and `<content>` as typed, a trailing space of the content included |
| Commands.GuardDecides | index.js:77-80 | for each DNS command whose pattern matches, a provider call is made iff the session passes the guard (same guard at lines 117, 153 and 185) |
| Wildcard.CekTail | index.js:229 | `\.?([^\s]+)` matches iff the rest starts with a non-white-space character; the capture starts after a leading dot exactly when a non-white-space character follows that dot, else at the start, and runs to the first white space or the end |
| Wildcard.CekArg | index.js:229 | the capture of `/\/cek \*\.?([^\s]+)/` |
| Wildcard.CekArgNoSpace | index.js:229-231 | the captured pattern is non-empty and holds no white space |
| Wildcard.CekArgTrimmed | index.js:231 | trimming the captured pattern changes nothing |
| Wildcard.Qualify | index.js:236 | one name per label, in order, each `label + "." + pattern` |
| Wildcard.Candidates | index.js:232-236 | `Qualify` of the eight fixed labels with the pattern: the FQDNs probed, in order |
| Wildcard.CandidatesFixed | index.js:232-236 | for any pattern, eight distinct names in the fixed order www, api, blog, mail, dev, app, test, cdn |
| Wildcard.ProbeOf | index.js:237-242 | a line names its FQDN; it is a success line iff resolving succeeded, and then it carries the addresses |
| Wildcard.Report | index.js:232-243 | one line per candidate, in the fixed order, each reporting that candidate's own resolve outcome, whatever the outcomes are |
| Wildcard.Cek | index.js:229-244 | no report iff the pattern fails; otherwise eight lines for `label.pattern` in the fixed order, each reporting that name's own resolve outcome |
| Wildcard.CekStarDot | index.js:229-231 | `/cek *.<domain>` probes subdomains of `<domain>` |
| Wildcard.CekStar | index.js:229-231 | `/cek *<domain>` also probes `<domain>` when it does not start with a dot |
| Wildcard.CekLoneDot | index.js:229 | a lone dot after the star, at the end or before white space (`/cek *. foo`), is captured itself, because the optional dot gives way |

## Left out

- Telegram transport (polling, `sendMessage`, Markdown) is left out. So are all reply texts: the welcome and prompt texts, the help text, the `/listcf` listing, the success and error messages, and the header and line text of the `/cek` report. These are I/O and presentation. The model keeps which outcome a reply reports, not its wording.
- The Cloudflare HTTP calls are left out. A command produces its requests as values. The provider's answers and the success, failure and exception branches that report them are not modelled. The one exception is `/updatecf`: whether its GET succeeded decides whether a PUT follows. So the outcome of that GET (the record, or none) is a parameter.
- `dns.resolve` is network I/O. Its outcome for each name is the `resolve` parameter of `Wildcard.Report` and `Wildcard.Cek`.
- Reading `TELEGRAM_TOKEN` from the environment and exiting when it is missing is startup I/O.
- The library's event dispatch order is left out: the `message` handler runs first, then every matching `onText` handler. Async handlers of different chats can interleave. Because of that order, a text such as `hello /start` both advances and then resets a session. The model has each handler on its own, not their composition.
- The crash when a message has no text (`msg.text` undefined) comes from the runtime, not from intended behaviour.
- JavaScript strings are UTF-16, and the model's strings are sequences of code points. For these patterns this changes no split: a split falls only at an ASCII space or at white space.
- Only the regular expressions of this file are modelled. They are all a literal command prefix followed by one of four tails. General regular expressions are not.
- `/help` only sends a fixed text, so it is left out with the other reply texts.
