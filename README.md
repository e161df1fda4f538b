# futto-note: a Dafny model of the timeline client and its message/session server

futto-note is a small single-user-at-a-time note timeline. A React client
signs a user in, loads and shows their messages, turns URLs in a message body
into links, and lets the user post. A Go server answers `/api/login`,
`/api/logout`, `/api/me` and `/api/messages` on top of PostgreSQL, keeping the
session in a cookie.

This project models the decision logic of both sides and proves what it
promises:

- `text.dfy` (`Text`): the two whitespace tables (ECMAScript's `\s`/`trim`
  set and Go's `unicode.IsSpace`), trimming, blank strings, decimal
  rendering, UTF-16 length.
- `types.dfy` (`Types`): the `Message` and `User` records and `Option`.
- `message_list.dfy` (`MessageList`): the body linkifier. `body.split(urlPattern)`
  is modelled on the splitting loop of `RegExp.prototype[@@split]` (ECMAScript
  section 22.2.6.14). The module also holds `exactURLPattern`, the React keys
  built from the running offset, and the choice of the list's four views.
- `client_errors.dfy` (`ClientErrors`): `parseErrorMessage`. Both hooks
  define it with the same text, so it is modelled once.
- `use_messages.dfy` (`UseMessages`): the `useMessages` hook as a class.
  There is one method per effect step and handler.
- `use_auth.dfy` (`UseAuth`): the `useAuth` hook as a class. The session
  check is one method; login and logout are each split into the part before
  the request and the part after it.
- `message_composer.dfy` (`MessageComposer`): the submit gate and the two
  event handlers.
- `responses.dfy` (`Responses`): `writeJSON`/`writeError` and the JSON string
  encoding they rely on. A JSON string reader is proved to invert it.
- `messages.dfy` (`MessageApi`): `strconv.Atoi`, the create and update
  ladders, and the `rows.Next()` loop of the list handler. An in-memory
  `MessageTable` class gives the `INSERT`/`UPDATE`/`SELECT` semantics.
- `auth.dfy` (`Auth`): session-token reading, the middleware and `/api/me`
  mapping, the login and logout handlers, and the cookie policy (RFC 6265,
  section 4.1.2.2 for `Max-Age` and section 5.2.2 for how a user agent reads
  it). It also holds the session token as Base16 with the lowercase alphabet
  of RFC 4648, section 8.

Inputs that come from the world are parameters:
- what a `fetch` resolved to, and whether its abort signal had fired when the
  `catch` and `finally` blocks ran;
- the decoded JSON request;
- each database answer;
- bcrypt's verdict;
- the bytes `crypto/rand` produced;
- `APP_ENV` and `CORS_ORIGIN`;
- the clock.

Where the code and the design text disagree, the model follows the code:
- **Empty literals around links.** The design asks for no empty-text
  artifacts, and says a body that is exactly one URL yields one link. The code
  renders every part `split` returns, so such a body gives an empty `<span>`,
  the link, and another empty `<span>` (`MessageList.SingleUrlBody`).
- **Ctrl+Enter skips the empty-body guard.** The design says an empty body is
  guarded client-side. The composer's Ctrl+Enter path calls `onSubmit`
  without consulting the disabled flag, even for an empty value
  (`MessageComposer.CtrlEnterBypassesGate`). Any guard must live in the
  caller, which is not part of this model.
- **A late answer on an aborted load still writes.** The load's `try` block
  does not look at the abort signal. A response that arrives after the abort
  still sets messages or the error. Only `catch` and `finally` are silenced,
  and `UseMessages.MessagesState.FinishLoad` keeps that behaviour.
- **Empty loads.** The design says an empty load triggers no scroll. The code
  does set the `"initial"` request. Nothing scrolls only because there is no
  newest element to hold `latestMessageRef` (`UseMessages.InitialLoadScrollsOnce`).
- **The scroll ref is never attached.** The scroll effect scrolls only when
  `latestMessageRef.current` is set (frontend/src/hooks/useMessages.ts:98-101).
  Neither `MessageListProps` (frontend/src/components/MessageList.tsx:4-9) nor
  the `<MessageList>` that `App.tsx` renders (frontend/src/App.tsx:65-70)
  carries that ref. In the shown code `scrollIntoView` therefore never fires.
  Whether the ref is mounted is a parameter of the scroll scenarios, and
  `UseMessages.UnattachedRefNeverScrolls` is the case of the shown code.

## Model

| member | source | states |
|---|---|---|
| `Text.TrimStart` | frontend/src/hooks/useAuth.ts:85-86 | The result is a suffix of the input, everything dropped is whitespace, and the result does not start with whitespace |
| `Text.TrimEnd` | frontend/src/hooks/useAuth.ts:85-86 | The result is a prefix of the input, everything dropped is whitespace, and the result does not end with whitespace |
| `Text.SkipSpace` | backend/auth.go:208 | The first position at or after a start that is not whitespace, with only whitespace before it |
| `Text.SkipSpaceBack` | backend/auth.go:208 | The end of the last non-whitespace character before a position, with only whitespace after it |
| `Text.TrimStartDropsBlank` | frontend/src/hooks/useAuth.ts:85-86 | Everything `trim` drops at the front is whitespace |
| `Text.TrimEndDropsBlank` | frontend/src/hooks/useAuth.ts:85-86 | Everything `trim` drops at the back is whitespace |
| `Text.TrimIsInfix` | backend/auth.go:93 | `trim`/`strings.TrimSpace` return the infix between a blank prefix and a blank suffix, at the offset where the leading whitespace ends; the result neither starts nor ends with whitespace |
| `Text.TrimEmptyIffBlank` | frontend/src/hooks/useMessages.ts:15 | Trimming gives "" exactly when every character is whitespace |
| `Text.TrimIdempotent` | backend/auth.go:208 | Trimming a trimmed string changes nothing |
| `Text.Decimal` | frontend/src/components/MessageList.tsx:29 | The rendering of `${offset}` is a non-empty digit string with no leading zero except for 0 itself |
| `Text.DecimalValue` | frontend/src/components/MessageList.tsx:29 | Reading the decimal rendering back gives the number |
| `Text.DecimalInjective` | frontend/src/components/MessageList.tsx:29 | Different offsets have different renderings |
| `Text.Utf16Length` | frontend/src/components/MessageList.tsx:30 | `part.length` is at least the number of code points and is 0 only for "" |
| `Text.Utf16LengthAppend` | frontend/src/components/MessageList.tsx:30 | The length of a concatenation is the sum of the lengths |
| `MessageList.MatchesAt` | frontend/src/components/MessageList.tsx:11 | Definition: `urlPattern` can match at a position exactly when `http://` or `https://` starts there and a non-whitespace character follows it |
| `MessageList.IsExactUrl` | frontend/src/components/MessageList.tsx:12 | Definition: `exactURLPattern` accepts `http://` or `https://` followed by one or more non-whitespace characters and nothing else |
| `MessageList.NextSpace` | frontend/src/components/MessageList.tsx:11 | The first whitespace at or after a position, or the end, with no whitespace in between |
| `MessageList.UrlEnd` | frontend/src/components/MessageList.tsx:11 | The greedy `[^\s]+` match runs from the scheme to the next whitespace or the end |
| `MessageList.Split` | frontend/src/components/MessageList.tsx:28 | Definition: `body.split(urlPattern)` is the split loop run from position 0, with each captured URL kept between the literals around it (its properties are in the `Split…` rows) |
| `MessageList.SplitFrom` | frontend/src/components/MessageList.tsx:28 | The ECMAScript split loop always yields an odd number of parts |
| `MessageList.ConcatAppend` | frontend/src/components/MessageList.tsx:28-30 | Joining two lists of parts is joining their joins |
| `MessageList.SplitFromConcat` | frontend/src/components/MessageList.tsx:28 | What the split loop produces from a position joins back to the rest of the body |
| `MessageList.SplitConcat` | frontend/src/components/MessageList.tsx:28 | Joining the parts of `body.split(urlPattern)` in order gives back the body |
| `MessageList.LiteralHasNoUrl` | frontend/src/components/MessageList.tsx:11-28 | A literal the loop closes contains no match of the URL pattern |
| `MessageList.MatchIsExactUrl` | frontend/src/components/MessageList.tsx:11-12 | Every captured match satisfies `exactURLPattern` |
| `MessageList.SplitFromAlternates` | frontend/src/components/MessageList.tsx:11-28 | From any position the parts alternate literal/URL, with URL-free literals at even indices |
| `MessageList.AlternatesCons` | frontend/src/components/MessageList.tsx:11-28 | A URL-free literal and a link in front of an alternating list of parts keep it alternating |
| `MessageList.SplitAlternates` | frontend/src/components/MessageList.tsx:11-28 | 2k+1 parts for k matches: links at odd indices, URL-free literals at even ones |
| `MessageList.ExactUrlOnOddParts` | frontend/src/components/MessageList.tsx:12-32 | `exactURLPattern.test(part)` holds exactly for the odd-indexed parts |
| `MessageList.ExactUrlMatchesAtStart` | frontend/src/components/MessageList.tsx:11-12 | A string `exactURLPattern` accepts has a `urlPattern` match at its start |
| `MessageList.SplitFromHead` | frontend/src/components/MessageList.tsx:28 | The first part is a prefix of the remaining body reaching at least the current position |
| `MessageList.LinksMaximalCons` | frontend/src/components/MessageList.tsx:11-28 | A literal and a link in front of parts whose first literal is empty only at the end, or starts with whitespace, keep every later literal of that form |
| `MessageList.SplitFromBoundaries` | frontend/src/components/MessageList.tsx:11-28 | After a link, a literal is empty only at the very end and otherwise starts with whitespace |
| `MessageList.SplitBoundaries` | frontend/src/components/MessageList.tsx:11-28 | Every literal after the first is empty only when it is the last, and otherwise begins with the whitespace that ended the link before it |
| `MessageList.SplitFromWithoutMatch` | frontend/src/components/MessageList.tsx:28 | With no match left, the loop yields the remaining body as one part |
| `MessageList.NoUrlIsOneLiteral` | frontend/src/components/MessageList.tsx:28-46 | A body is one literal equal to itself, "" included, exactly when it contains no URL |
| `MessageList.SingleUrlBody` | frontend/src/components/MessageList.tsx:28-47 | A body that is exactly one URL splits into an empty literal, the link and another empty literal |
| `MessageList.OffsetStep` | frontend/src/components/MessageList.tsx:29-30 | Each part's offset is the previous offset plus the previous part's length |
| `MessageList.OffsetMonotone` | frontend/src/components/MessageList.tsx:27-30 | Offsets never decrease along the parts |
| `MessageList.OffsetsApart` | frontend/src/components/MessageList.tsx:27-30 | Two parts of the same kind have a non-empty link between them, so their offsets differ |
| `MessageList.FirstDash` | frontend/src/components/MessageList.tsx:29 | The position of the first `-` lies within the string |
| `MessageList.FirstDashAfter` | frontend/src/components/MessageList.tsx:29 | In a digit string followed by `-`, the first dash is the one right after the digits |
| `MessageList.DashSeparated` | frontend/src/components/MessageList.tsx:29 | Two keys of the form `<digits>-<part>` that are equal have equal digit prefixes |
| `MessageList.PartKey` | frontend/src/components/MessageList.tsx:29 | Definition: the kind prefix `link-` or `text-`, then the running offset in decimal, `-` and the part's text |
| `MessageList.PartKeyInjective` | frontend/src/components/MessageList.tsx:29-46 | Equal keys have the same kind (`link-`/`text-`) and the same offset |
| `MessageList.KeysDistinct` | frontend/src/components/MessageList.tsx:27-46 | The keys of the parts of a split body are pairwise distinct |
| `MessageList.RendersAppend` | frontend/src/components/MessageList.tsx:29-47 | Rendering one more part keeps every earlier part rendered with its own offset |
| `MessageList.RenderedBody` | frontend/src/components/MessageList.tsx:26-47 | Segments rendered part by part join back to the body, are anchors exactly at odd indices, have URL-free text spans and distinct keys |
| `MessageList.RenderMessageBody` | frontend/src/components/MessageList.tsx:26-47 | The loop renders one segment per split part with that part's running offset: an anchor with `href` equal to its text for a URL and a span otherwise; the segments join back to the body and have distinct keys |
| `MessageList.SelectView` | frontend/src/components/MessageList.tsx:62-90 | Each view is chosen exactly when its JSX guard holds; the error view shows the error and the list view all messages |
| `MessageList.ExactlyOneView` | frontend/src/components/MessageList.tsx:62-90 | Exactly one of loading, error, empty and list is shown, and loading takes precedence over error |
| `ClientErrors.ParseErrorMessage` | frontend/src/hooks/useMessages.ts:9-22 | Definition: the `error` field exactly as sent when the body parsed to an object whose `error` is a string that is non-blank after `trim`, and the fallback otherwise (its properties are in the next row) |
| `ClientErrors.ParseErrorMessageSpec` | frontend/src/hooks/useMessages.ts:9-22 | The untrimmed `error` string is returned exactly when it is present and not blank; otherwise, parse failures included, the fallback is returned. A non-blank fallback gives a non-blank result |
| `UseMessages.ReplaceById` | frontend/src/hooks/useMessages.ts:111-117 | Definition: the `map` that puts the updated message in place of each entry with its id (its properties are in the next rows) |
| `UseMessages.ReplaceByIdSpec` | frontend/src/hooks/useMessages.ts:111-117 | Replacing keeps the length and the order, swaps every entry with the updated id and keeps every other entry |
| `UseMessages.ReplaceUnknownId` | frontend/src/hooks/useMessages.ts:111-117 | An update with an unknown id leaves the list as it was |
| `UseMessages.ReplaceIdempotent` | frontend/src/hooks/useMessages.ts:111-117 | Replacing twice with the same message is replacing once |
| `UseMessages.MessagesState.constructor` | frontend/src/hooks/useMessages.ts:28-33 | Empty list, not loading, no error, no scroll request |
| `UseMessages.MessagesState.ClearForSignedOut` | frontend/src/hooks/useMessages.ts:37-44 | A null user empties the list, clears the error, stops loading and drops any scroll request |
| `UseMessages.MessagesState.StartLoad` | frontend/src/hooks/useMessages.ts:46-48 | Before the request the error is cleared and loading is on; messages and scroll request are kept |
| `UseMessages.MessagesState.FinishLoad` | frontend/src/hooks/useMessages.ts:50-84 | A 401 only signs out. Non-ok sets the parsed error or the fallback. Ok replaces the list (a non-array gives []) and requests the initial scroll. A rejection sets the fallback unless aborted. Loading stops unless aborted |
| `UseMessages.MessagesState.AppendMessage` | frontend/src/hooks/useMessages.ts:106-109 | The list grows by the new message at the tail with the prefix kept, and a post-send scroll is requested |
| `UseMessages.MessagesState.ReplaceMessage` | frontend/src/hooks/useMessages.ts:111-117 | The list is replaced by id and the scroll request is untouched |
| `UseMessages.MessagesState.ScrollEffect` | frontend/src/hooks/useMessages.ts:93-104 | It scrolls exactly when a request is pending and the newest item is mounted, and it always leaves no pending request |
| `UseMessages.InitialLoadScrollsOnce` | frontend/src/hooks/useMessages.ts:72-104 | A successful load shows the loaded list. It scrolls once exactly when some consumer mounts `latestMessageRef` on the newest item and the list is non-empty, and the next render does not scroll again |
| `UseMessages.SendScrollsOnce` | frontend/src/hooks/useMessages.ts:93-109 | Sending a message scrolls once exactly when some consumer mounts `latestMessageRef` on the newest item, and never a second time |
| `UseMessages.UnattachedRefNeverScrolls` | frontend/src/hooks/useMessages.ts:93-109 | With the ref never attached, as in the rendered `MessageList`, neither the initial load nor a send scrolls |
| `UseMessages.FailedLoadNeverScrolls` | frontend/src/hooks/useMessages.ts:63-104 | A failed load shows the fallback and never scrolls |
| `UseMessages.AbortedLoadChangesNothing` | frontend/src/hooks/useMessages.ts:75-83 | A load rejected after the abort changes no state |
| `UseAuth.LoginRejectedLocally` | frontend/src/hooks/useAuth.ts:85-89 | Definition: the guard that stops a login when the trimmed username or the trimmed password is empty |
| `UseAuth.LoginRejectedLocallyIffBlank` | frontend/src/hooks/useAuth.ts:85-89 | Login stops before any request exactly when the username or the password is blank |
| `UseAuth.LogoutFailedIffNotOk` | frontend/src/hooks/useAuth.ts:136 | Logout fails exactly on a status that is not ok; the `!== 204` test never changes the outcome |
| `UseAuth.AuthState.constructor` | frontend/src/hooks/useAuth.ts:30-38 | The nine initial values: no user, checking, empty form and errors, nothing in flight, menu closed |
| `UseAuth.AuthState.SetUsername` | frontend/src/hooks/useAuth.ts:32 | Only the username changes |
| `UseAuth.AuthState.SetPassword` | frontend/src/hooks/useAuth.ts:33 | Only the password changes |
| `UseAuth.AuthState.SetUser` | frontend/src/hooks/useAuth.ts:30 | Only the user changes |
| `UseAuth.AuthState.CloseMenuEffect` | frontend/src/hooks/useAuth.ts:40-44 | After the effect a signed-out user never has the menu open; with a user the menu is kept |
| `UseAuth.AuthState.ToggleUserMenu` | frontend/src/hooks/useAuth.ts:153 | The menu flag is negated and nothing else changes |
| `UseAuth.AuthState.FinishSessionCheck` | frontend/src/hooks/useAuth.ts:46-80 | An ok response sets the user from the body and any other status clears it. A rejection clears it unless aborted. Checking ends unless aborted |
| `UseAuth.AuthState.BeginLogin` | frontend/src/hooks/useAuth.ts:82-105 | A blank trimmed username or password sets the validation error, sends nothing and leaves `isSubmitting` as it was. Otherwise the error is cleared, submitting starts, and the payload is the trimmed username with the untrimmed password |
| `UseAuth.AuthState.FinishLogin` | frontend/src/hooks/useAuth.ts:107-125 | Success sets the user and clears username, password and error. Non-ok or a rejection sets the parsed message or fallback and keeps the user. Submitting always ends |
| `UseAuth.AuthState.BeginLogout` | frontend/src/hooks/useAuth.ts:128-130 | The logout error is cleared and logging out starts |
| `UseAuth.AuthState.FinishLogout` | frontend/src/hooks/useAuth.ts:131-150 | A non-ok, non-204 status or a rejection sets the error and keeps the user. Otherwise the user becomes null. Logging out always ends |
| `UseAuth.BlankLoginSendsNothing` | frontend/src/hooks/useAuth.ts:85-89 | A blank username or password sends nothing, shows the validation error and does not start submitting |
| `UseAuth.AcceptedLogin` | frontend/src/hooks/useAuth.ts:85-125 | An accepted login sends the trimmed username and the password as typed, signs the user in and empties the form |
| `UseAuth.LogoutClosesMenu` | frontend/src/hooks/useAuth.ts:40-153 | A 204 logout signs the user out and the effect closes the open menu |
| `UseAuth.FailedLogoutKeepsUser` | frontend/src/hooks/useAuth.ts:136-147 | A failed logout keeps the user and shows the fallback when the body has no message |
| `MessageComposer.IsSubmitDisabled` | frontend/src/components/MessageComposer.tsx:18 | Definition: the button is disabled while submitting or when the value is exactly "" |
| `MessageComposer.IsTextareaDisabled` | frontend/src/components/MessageComposer.tsx:45 | Definition: the textarea is disabled exactly while submitting |
| `MessageComposer.HandleSubmit` | frontend/src/components/MessageComposer.tsx:20-23 | Submitting the form prevents the default and calls `onSubmit` exactly once |
| `MessageComposer.HandleTextareaKeyDown` | frontend/src/components/MessageComposer.tsx:25-30 | A keydown calls `onSubmit` at most once, exactly for Enter with Ctrl, and only then prevents the default |
| `MessageComposer.SubmitGate` | frontend/src/components/MessageComposer.tsx:18-49 | The button is enabled exactly when not submitting and the value is non-empty. A whitespace-only value enables it. A disabled textarea implies a disabled button |
| `MessageComposer.PlainEnterTypesNewline` | frontend/src/components/MessageComposer.tsx:25-30 | Enter without Ctrl neither submits nor prevents the default |
| `MessageComposer.CtrlEnterBypassesGate` | frontend/src/components/MessageComposer.tsx:18-30 | Ctrl+Enter acts the same whatever the props, and submits even with an empty value while the button is disabled |
| `Responses.EscapeChar` | backend/auth.go:260 | One character as `encoding/json` writes it: `\"`, `\\`, `\n`, `\r`, `\t`, `\b`, `\f`, `\u00XX` for other control characters and for `<`, `>`, `&`, `\u2028`/`\u2029` for those two, and the character itself otherwise; never empty |
| `Responses.EscapeJson` | backend/auth.go:260 | The characters between the quotes: every character escaped in turn, so never shorter than the input (read back by `EscapeJsonRoundTrip`) |
| `Responses.ErrorResponse` | backend/auth.go:257-265 | Definition: the status, `application/json` and the encoder's line `{"error":"<escaped message>"}` plus a newline (its shape is in `ErrorResponseShape`) |
| `Responses.HexDigit` | backend/auth.go:53 | A lowercase hex digit whose value is the nibble |
| `Responses.Nibbles` | backend/auth.go:263-264 | The four hex digits of a `\u` escape add back up to the code point |
| `Responses.EscapeCharReads` | backend/auth.go:257-264 | Reading back one escaped character gives that character |
| `Responses.EscapeJsonRoundTrip` | backend/auth.go:257-264 | The JSON string encoding is inverted by a JSON string reader |
| `Responses.EscapePlain` | backend/auth.go:263-264 | Plain printable ASCII (no quote, backslash, `<`, `>` or `&`) is written unchanged |
| `Responses.ErrorResponseShape` | backend/auth.go:257-265 | `writeError` sends the status and `application/json`, and a body `{"error":"…"}` plus a newline whose string reads back as the message |
| `Responses.ErrorResponsePlain` | backend/auth.go:257-265 | For a plain ASCII message the body is exactly `{"error":"<msg>"}` and a newline |
| `Responses.EscapeJsonSafe` | backend/auth.go:260 | The HTML-safe encoding leaves no raw `<`, `>`, `&`, control character, U+2028 or U+2029 |
| `Responses.UnicodeEscapeSafe` | backend/auth.go:260 | A `\u` escape consists of safe characters only |
| `Responses.EscapeCharSafe` | backend/auth.go:260 | The encoding of any one character contains no raw `<`, `>`, `&`, control character, U+2028 or U+2029 |
| `MessageApi.Atoi` | backend/messages.go:140-145 | An accepted id has a digit and fits in int64 |
| `MessageApi.AtoiDecimal` | backend/messages.go:140-145 | Every non-negative int64 written in decimal is read back |
| `MessageApi.AtoiNegative` | backend/messages.go:140-145 | Every negative int64 written with `-` is read back, down to -2^63 |
| `MessageApi.AtoiAccepts` | backend/messages.go:140-145 | Whatever is accepted is an optional sign and digits, and the result is their signed value |
| `MessageApi.AtoiAcceptsExamples` | backend/messages.go:140-145 | "42" is read as 42, "+7" and "007" as 7 |
| `MessageApi.AtoiRejectsExamples` | backend/messages.go:140-145 | "abc", "", "-" and " 1" are rejected |
| `MessageApi.AtoiOutOfRange` | backend/messages.go:140-145 | Decimal numbers beyond int64 on either side are rejected |
| `MessageApi.CreateMessage` | backend/messages.go:104-131 | The order is missing user 500, undecodable body 400, empty body 400. The store is called only when all pass, with exactly (user id, body); then 201 with the item, or 500 |
| `MessageApi.UpdateMessage` | backend/messages.go:133-171 | The order is missing user 500, bad id 400, undecodable body 400, empty body 400. The store is called only when all pass, with the parsed id; then ErrNoRows 404, other errors 500, success 200 with the item |
| `MessageApi.StoreOnlyAfterChecks` | backend/messages.go:104-171 | Until every check passes the store's answer cannot change what a handler does |
| `MessageApi.BadIdBeforeBody` | backend/messages.go:140-153 | A bad id is reported whatever the body is |
| `MessageApi.UpdatePassesParsedId` | backend/messages.go:140-160 | The path id "42" reaches the store as 42 |
| `MessageApi.FindOwned` | backend/messages.go:51-53 | The index of a row matching both id and owner, or none exactly when no row matches |
| `MessageApi.UpdateRows` | backend/messages.go:50-57 | Definition: `SET body = $1 WHERE id = $2 AND user_id = $3` applied to every row, order kept (its properties are in `UpdateRowsSpec`) |
| `MessageApi.UpdateOutcome` | backend/messages.go:48-64 | Definition: the `RETURNING` scan gives the first selected row with the new body, or `sql.ErrNoRows` when none is selected (its properties are in `UpdateOutcomeSpec`) |
| `MessageApi.UpdateRowsSpec` | backend/messages.go:48-64 | Only the row matching both id and user id gets the new body; its id, owner and created_at and every other row are kept |
| `MessageApi.UpdateOutcomeSpec` | backend/messages.go:48-64 | ErrNoRows exactly when no row matches, and then nothing changes; otherwise the edited row comes back |
| `MessageApi.UpdateChangesAtMostOneRow` | backend/messages.go:48-64 | When ids are distinct, as the table's invariant keeps them, at most one row is selected and `UpdateRows` changes at most one position, so the single-row `QueryRow` scan misses no updated row |
| `MessageApi.RowsOf` | backend/messages.go:73-79 | A filter of the table to one user's rows |
| `MessageApi.Items` | backend/messages.go:14-18 | One list item per row |
| `MessageApi.InsertByTime` | backend/messages.go:77 | Inserting into a list sorted by created_at keeps it sorted and adds exactly that item |
| `MessageApi.SortedCons` | backend/messages.go:77 | An item no later than the head of a sorted list can stand in front of it |
| `MessageApi.SortByTime` | backend/messages.go:77 | `ORDER BY created_at ASC` gives a sorted permutation |
| `MessageApi.MessageTable.constructor` | backend/messages.go:32-64 | An empty table whose ids start at 1 |
| `MessageApi.MessageTable.Insert` | backend/messages.go:32-46 | A new row with the next id, the user, the body and the current time is appended, and its item is returned; ids stay unique |
| `MessageApi.MessageTable.Update` | backend/messages.go:48-64 | The table becomes the updated rows and the result is the edited row or ErrNoRows; ids stay unique |
| `MessageApi.MessageTable.Select` | backend/messages.go:73-79 | The user's rows as items, sorted by created_at, each exactly once |
| `MessageApi.RowsOfSpec` | backend/messages.go:76 | A row is among a user's rows exactly when it is in the table with that user id |
| `MessageApi.SelectIsUsersRows` | backend/messages.go:73-79 | The list holds exactly the requesting user's messages and nobody else's |
| `MessageApi.ListMessages` | backend/messages.go:66-102 | 200 exactly when the user, query, every scan and the iteration succeed, with the scanned items as an array (never null, even when empty); otherwise 500 |
| `MessageApi.ServeList` | backend/messages.go:66-102 | Against the table the list reply is the user's messages, oldest first |
| `MessageApi.ServeCreate` | backend/messages.go:104-131 | A row is inserted, and the next id advances by one, exactly when the ladder calls the store, with the ladder's arguments; otherwise the table and the next id are unchanged |
| `MessageApi.ServeUpdate` | backend/messages.go:133-171 | Only a request that passes the ladder changes the table, by the update's semantics, and its reply is the ladder's reply to the store's answer; the next id never changes |
| `Auth.HexEncode` | backend/auth.go:53 | Two lowercase hex characters per byte |
| `Auth.HexDecode` | backend/auth.go:53 | A successful decode takes two characters per byte |
| `Auth.HexRoundTrip` | backend/auth.go:53 | Base16 decoding inverts the encoding |
| `Auth.GenerateSessionToken` | backend/auth.go:47-54 | A failed read gives an error. Otherwise the token is 64 lowercase hex characters that decode to the 32 bytes |
| `Auth.TokensDistinct` | backend/auth.go:47-54 | Different random buffers give different tokens |
| `Auth.ReadSessionToken` | backend/auth.go:199-214 | A token exactly when the cookie is present and non-blank after `TrimSpace`, and then the trimmed value; other cookie errors pass through |
| `Auth.ReadSessionTokenSpec` | backend/auth.go:199-214 | A missing cookie and a blank one are the same error; a token has no surrounding whitespace |
| `Auth.AuthMiddleware` | backend/auth.go:56-77 | The next handler runs, with the session's user id, exactly when a token was read and the lookup found it. Lookup errors other than ErrNoRows give 500; everything else gives 401 "unauthorized" |
| `Auth.MeHandler` | backend/auth.go:152-170 | 200 with the user exactly when a token was read and the lookup found it. Other lookup errors give 500; everything else gives 401 |
| `Auth.MeAgreesWithMiddleware` | backend/auth.go:56-170 | `/api/me` refuses exactly when the middleware does, with the same status and message |
| `Auth.CookieSameSite` | backend/auth.go:250-255 | Definition: `SameSite=None` when `CORS_ORIGIN` is set, `Strict` otherwise |
| `Auth.SessionCookie` | backend/auth.go:216-227 | Definition: `session_token` with the token, path `/`, HttpOnly, Secure in production or cross-origin, the SameSite policy, `MaxAge` 2592000 and `Expires` that far from now |
| `Auth.ClearCookie` | backend/auth.go:229-240 | Definition: an empty `session_token` with the same path and flags, `MaxAge` -1 and `Expires` at the Unix epoch (its properties are in `CookiePolicy`) |
| `Auth.CookiePolicy` | backend/auth.go:18-255 | SameSite=None exactly when cross-origin, Secure exactly in production or cross-origin. The session cookie lives 2592000 s with Expires agreeing. The clearing cookie is empty with MaxAge -1, sent as `Max-Age=0`, and expires at once |
| `Auth.LoginHandler` | backend/auth.go:84-137 | Undecodable gives 400. A blank trimmed username or empty untrimmed password gives 400 with no lookup. An unknown user or wrong password gives 401. Other lookup errors give 500. Token or insert failure gives 500 with no cookie. Success stores the session, sets the cookie and returns 200 with the user |
| `Auth.UnknownUserLikeWrongPassword` | backend/auth.go:106-118 | An unknown user and a wrong password give the identical 401, with no session and no cookie |
| `Auth.PasswordNotTrimmed` | backend/auth.go:93-98 | The username is trimmed and the password is not: a whitespace password is checked as typed, while a whitespace username is refused |
| `Auth.LogoutHandler` | backend/auth.go:139-150 | With no token the cookie is cleared with 204. With a token it is deleted; a failed delete gives 500 and keeps the cookie |
| `Auth.LogoutWithoutSession` | backend/auth.go:139-150 | Without a session, logout succeeds and clears the cookie whatever the database would answer |

## Left out

- `formatMessageTime` (frontend/src/components/MessageList.tsx:14-24) is left out. It depends on JavaScript `Date` parsing and `Intl.DateTimeFormat` locale data.
- The design also describes day separators and per-message edit, delete and copy. `MessageList.tsx` and `useMessages.ts` define none of these, so they are not modelled.
- Browser and React plumbing is left out. This covers `fetch`, `AbortController` and promise scheduling, render batching, refs and `scrollIntoView`. Each request is reduced to its outcome, and an effect run to a method call.
- `UseMessages.MessagesState.FinishLoad`, `UseAuth.AuthState.FinishSessionCheck` and `UseAuth.AuthState.FinishLogin` take the JSON body as decoded: `Message` values for the load, the `data.user` object for the other two (frontend/src/hooks/useAuth.ts:58, frontend/src/hooks/useAuth.ts:117). Elements that are not `Message` objects, and a `user` field that is missing or malformed, are not modelled.
- The composer's error paragraph (frontend/src/components/MessageComposer.tsx:53-57), shown when `errorMessage` is non-empty, is markup and is not modelled.
- The server's database, bcrypt, `crypto/rand`, the chi router, `http.SetCookie`'s header writing, environment lookups and JSON request decoding are left out. Each one's answer is an input, so `DisallowUnknownFields` is only a decode failure.
- `MessageApi.MessageTable.Insert` never fails. An insert error reaches `CreateMessage` only as its store-result parameter.
- `MessageApi.SortByTime` is one valid `ORDER BY created_at` order. For rows with equal `created_at`, SQL leaves the order unspecified, and the model keeps table order.
- The success bodies written by `writeJSON` are not modelled. The item, list and user payloads stay as values, and `time.Time` is kept as an integer instant.
- `Responses.EscapeChar` follows `encoding/json` from Go 1.22 on, which writes `\b` and `\f`. Older releases wrote `\u0008` and `\u000c`. Invalid UTF-8 cannot occur, since Dafny strings hold code points.
- `MessageApi.Atoi` assumes a 64-bit `int`.
- `Text.IsJsSpace`'s and `Text.IsGoSpace`'s tables reflect Unicode 15, where U+180E is not whitespace.
- `split`'s limit of 2^32-1 parts is not modelled.
- `MessageList.Split` works on code points. `[^\s]` in a non-`u` regular expression steps over UTF-16 code units, but a surrogate is never whitespace, so the parts are the same.
- The remaining files are wiring, copies or markup, and are not part of this model:
  - `App.tsx`: wiring;
  - `LoginForm.tsx` and `AuthHeader.tsx`: markup;
  - `main.go`: server start-up;
  - `tools/create_user.go`;
  - the Vite config;
  - the end-to-end health test.
