# Pulse mini-app core in Dafny

This project models the pure logic of the Pulse mini-app and its companion bot:

- **Launch-payload check.** The validation server's `validateInitData` checks the
  launch payload. It applies two empty-input guards, then extracts `hash`. It
  builds the sorted `key=value` data-check string and derives the HMAC key in two
  stages ("WebAppData", then the bot token). It compares the hex digests with a
  length guard. Finally it applies the seconds/milliseconds heuristic for
  `auth_date`, the 24-hour expiry, and the soft extraction of `user`, `chat`,
  `start_param` and `query_id`.
- **Deep-link classifier.** `parseStartParam` maps the start parameter to a mode
  (`daily`, `retro`, `incident`, `unknown`), its label, and optional details.
- **Bot payloads and links.** The bot has an outbound payload sanitizer, a
  `startapp` link builder, and a keyword router for incoming messages.
- **History store.** The store keeps one list per key. Its loader skips malformed
  records, and its insert prepends the new entry and keeps at most 20.
- **Pulse screen.** It computes the comment preview, the placeholder, the share
  text and the storage key. It also holds the mood, comment and submit state
  machine, whose `dirty` flag drives closing protection.
- **History screen.** It builds the five-entry mood summary and clears a history.

Module layout follows the program:

| file | module | models |
|---|---|---|
| `js_string.dfy` | `JsString` | the JavaScript string operations the core relies on: `trim`, `startsWith`, `includes`, `replace`, ASCII `toLowerCase`, decimal `String(n)` |
| `hex.dfy` | `Hex` | `digest('hex')`, `Buffer.from(s, 'hex')`, the timing-safe equality |
| `seq_facts.dfy` | `SeqFacts` | facts about sequences and their multisets that several modules use |
| `string_order.dfy` | `StringOrder` | `Array.prototype.sort` on strings and `join` |
| `init_data.dfy` | `InitData` | `server/src/validateInitData.ts` |
| `pulse.dfy` | `Pulse` | `src/domain/pulse.ts` |
| `bot.dfy` | `Bot` | the pure parts of `bot/src/index.ts` |
| `json.dfy`, `storage.dfy` | `Json`, `Storage` | JSON values and `src/lib/storage.ts` |
| `pulse_screen.dfy` | `PulseScreen` | the logic of `src/screens/PulseScreen.tsx` |
| `history_screen.dfy` | `HistoryScreen` | the logic of `src/screens/HistoryScreen.tsx` |

**Platform services.** The model does not implement HMAC-SHA256, UTF-8 encoding,
`decodeURIComponent`, `URLSearchParams` parsing, `Number`, `JSON.parse` or
`JSON.stringify`. They are fields of a `Primitives` record, or of a `JsonCodec`,
and most statements about them hold for any implementation. Three groups of
statements carry a hypothesis instead:

- `InitData.SignedPayloadVerified` assumes that HMAC-SHA256 returns a non-empty
  digest for the signed pairs. The real HMAC-SHA256 always returns 32 bytes.
- `InitData.TamperedPayloadRejected` assumes the same of the original pairs.
  It also assumes that the tampered pairs' HMAC differs from the original's,
  so it does not hold under an HMAC collision.
- The read-back statements carry a hypothesis about the codec, described next.

**Storage JSON.** Statements that read back what was written take one
hypothesis, and it is about the one list actually written. `Json.RoundTrips`
says that `JSON.stringify` of that value gives non-empty text and that
`JSON.parse` of the text gives the value back. `Storage.ListRoundTrips` applies
it to a list of entries. The hypothesis is never stated for all values at once,
because no text codec can round-trip every real number.

**Time and randomness.** `Date.now()` and `buildId()` become the parameters
`now` and `id`.

**Places where the code, not its written description, decides:**

- **Repeated names.** With a parameter name repeated, `params.get` returns the
  FIRST value, not the last one. `params.delete('hash')` removes every `hash`
  pair. The data-check string keeps every duplicate of the other names.
- **`decodeURIComponent`.** It can throw on malformed percent-encoding, and
  `validateInitData` does not catch it. The model returns `ThrowsUriError` in
  that case instead of a rejection.
- **Stored entries.** The loader checks only that each field of a stored entry
  is a string or number. So a stored `mood` or `mode` may be any string.
- **Summary counts.** `buildSummary` counts only the exact moods `good`, `ok` and
  `bad`. Its three counts add up to the `последние N` figure only when every
  summarised mood is one of those three (`HistoryScreen.SummaryCountsAddUp`,
  `HistoryScreen.UnknownMoodCountedNowhere`).
- **Empty `hash`.** A `hash` parameter that is present but empty is reported as
  `hash missing`.
- **`auth_date` of zero.** An `auth_date` that parses to 0 is reported as
  `auth_date missing`.
- **Shared `default` history.** No start parameter and the start parameter
  `default` share the key `pulse:default`, so they share one history
  (`PulseScreen.DefaultKeyShared`).

## Model

| member | source | states |
|---|---|---|
| JsString.Trim | src/domain/pulse.ts:33 | the result is the input with exactly its leading and trailing ECMAScript white space and line terminators removed; it neither starts nor ends with white space |
| JsString.TrimIdempotent | src/domain/pulse.ts:33 | trimming a trimmed string changes nothing |
| JsString.TrimEmptyIffAllWhitespace | src/domain/pulse.ts:33-35 | the trimmed text is empty exactly when every character of the input is white space |
| JsString.IncludesIffOccurrence | bot/src/index.ts:134 | `includes` holds exactly when the pattern occurs at some position of the text |
| JsString.ReplaceChar | src/domain/pulse.ts:44 | the global `_` → space replacement keeps the length and changes exactly the matching characters |
| JsString.ReplaceCharAbsent | src/domain/pulse.ts:48 | replacing a character that does not occur returns the text unchanged |
| JsString.ToLowerAscii | bot/src/index.ts:133 | lower-casing keeps the length and maps each character on its own |
| JsString.NatToString | src/screens/HistoryScreen.tsx:22 | the decimal text of a count is non-empty, all digits, without a leading zero |
| JsString.NatToStringValue | src/screens/HistoryScreen.tsx:22 | reading the decimal text back gives the count |
| JsString.NatToStringInjective | src/screens/HistoryScreen.tsx:22 | different counts print differently |
| Hex.HexEncode | server/src/validateInitData.ts:62 | `digest('hex')` gives two lower-case hex digits per byte |
| Hex.HexDecode | server/src/validateInitData.ts:28-29 | `Buffer.from(s, 'hex')` yields at most one byte per two characters |
| Hex.HexDecodeByteAt | server/src/validateInitData.ts:28-29 | for any text, decoded byte `i` is the value of the two hex digits at positions `2i` and `2i+1` |
| Hex.HexDecodeStopsAtBadPair | server/src/validateInitData.ts:28-29 | for any text, decoding stops only at a pair that is not two hex digits or at a single odd trailing character |
| Hex.HexDecodeAppend | server/src/validateInitData.ts:28-29 | decoding an encoded digest followed by any text gives the digest followed by the decoding of that text |
| Hex.HexRoundTrip | server/src/validateInitData.ts:28-29 | hex decoding undoes hex encoding |
| Hex.HexEncodeInjective | server/src/validateInitData.ts:62 | different digests have different hex texts |
| Hex.TimingSafeEqual | server/src/validateInitData.ts:33 | on equal-length buffers the comparison is true exactly when the buffers are equal |
| Hex.ConstantTimeEqual | server/src/validateInitData.ts:27-34 | false when the decoded lengths differ; otherwise true exactly when the decoded byte sequences are equal |
| Hex.CompareHexDigests | server/src/validateInitData.ts:27-34 | the step-by-step comparison (decode, length guard, then `TimingSafeEqual` over every byte) is true exactly when both texts decode to the same bytes, and so agrees with `ConstantTimeEqual` |
| Hex.MatchesDigestIffDecodes | server/src/validateInitData.ts:27-34 | a supplied hash matches a computed digest exactly when it hex-decodes to that digest |
| StringOrder.LessEqTotal | server/src/validateInitData.ts:57 | any two strings are comparable in the sort order |
| StringOrder.LessEqAntisymmetric | server/src/validateInitData.ts:57 | strings ordered both ways are equal |
| StringOrder.LessEqTransitive | server/src/validateInitData.ts:57 | the sort order is transitive |
| StringOrder.LessEq | server/src/validateInitData.ts:57 | the default string order: lexicographic by character, a proper prefix first; `LessEqTotal`, `LessEqAntisymmetric` and `LessEqTransitive` state that it is a total order |
| StringOrder.Insert | server/src/validateInitData.ts:57 | inserting into a sorted list keeps it sorted and adds exactly the one element |
| StringOrder.Sort | server/src/validateInitData.ts:57 | the sorted lines are ordered and are a permutation of the input |
| StringOrder.SortedUnique | server/src/validateInitData.ts:57 | two sorted permutations of the same lines are identical |
| StringOrder.SortPermutationInvariant | server/src/validateInitData.ts:57 | sorting gives the same result for any order of the input |
| StringOrder.Join | server/src/validateInitData.ts:58 | joining no lines gives the empty text; otherwise the text starts with the first line |
| StringOrder.Split | server/src/validateInitData.ts:58 | splitting at a separator always gives at least one piece; it is the inverse that `SplitJoin` relates to `join` |
| StringOrder.SplitJoin | server/src/validateInitData.ts:58 | splitting the `join` of a non-empty list of lines, none containing the separator, gives back exactly those lines |
| InitData.GetParam | server/src/validateInitData.ts:47 | `get` is absent exactly when no pair has the name; otherwise it is the value of the first pair with that name |
| InitData.DeleteParam | server/src/validateInitData.ts:51 | after `delete` no pair has the name, and every remaining pair was in the input |
| InitData.DeleteParamCount | server/src/validateInitData.ts:51 | `delete` keeps every pair with another name exactly as often as it occurred, duplicates included |
| InitData.GetAfterDelete | server/src/validateInitData.ts:51 | deleting `hash` does not change what `get` returns for any other name |
| InitData.DeleteAbsent | server/src/validateInitData.ts:51 | deleting a name no pair carries changes nothing |
| InitData.DeleteParamAppend | server/src/validateInitData.ts:51 | `delete` works pair by pair: deleting from a concatenation deletes from each part |
| InitData.GetParamSkipsPrefix | server/src/validateInitData.ts:47 | `get` looks past leading pairs that do not carry the name |
| InitData.DataCheckLines | server/src/validateInitData.ts:53-56 | one `key=value` line per remaining pair, in order |
| InitData.DataCheckLinesPermutation | server/src/validateInitData.ts:53-56 | a permutation of the pairs gives a permutation of the lines |
| InitData.DataCheckStringPermutation | server/src/validateInitData.ts:53-58 | the data-check string is the same for any order of the remaining pairs |
| InitData.LineFromPayloadPair | server/src/validateInitData.ts:51-56 | every line rendered after deleting a name comes from an input pair with another name |
| InitData.DataCheckLinesOfPayload | server/src/validateInitData.ts:51-58 | the sorted lines are a permutation of the rendered non-`hash` pairs; every line comes from a non-`hash` pair |
| InitData.DataCheckString | server/src/validateInitData.ts:53-58 | no remaining pairs give the empty string; otherwise the string contains `=` |
| InitData.DataCheckStringLines | server/src/validateInitData.ts:53-58 | when no key or value contains a newline, splitting the data-check string at newlines gives back exactly the sorted `key=value` lines |
| InitData.SecretKey | server/src/validateInitData.ts:60 | the HMAC-SHA256, keyed with the UTF-8 of `WebAppData`, of the UTF-8 bot token; HMAC is a parameter, so no further contract |
| InitData.ExpectedDigest | server/src/validateInitData.ts:62 | the HMAC-SHA256, keyed with the secret key, of the UTF-8 data-check string; HMAC is a parameter, so no further contract |
| InitData.ComputedHash | server/src/validateInitData.ts:60-62 | the hex text is two characters per digest byte and hex-decodes back to the expected digest |
| InitData.PayloadPermutation | server/src/validateInitData.ts:51-58 | reordering the payload's pairs, `hash` included, leaves the signed string unchanged |
| InitData.ParseAuthDate | server/src/validateInitData.ts:16-25 | absent, empty or non-finite gives nothing; above 1e12 is kept as milliseconds, anything else is multiplied by 1000 |
| InitData.AuthDateUnitsAgree | server/src/validateInitData.ts:24 | an instant after 2001-09-09 gives the same milliseconds whether supplied in seconds or in milliseconds |
| InitData.GetJson | server/src/validateInitData.ts:78-88 | a field is absent exactly when its parameter is missing or empty or its JSON is malformed; otherwise it is the parsed value |
| InitData.CheckParams | server/src/validateInitData.ts:47-99 | each of `hash missing`, `hash mismatch`, `auth_date missing` and `auth_date expired` is returned exactly when every earlier step passed and its own failed; success otherwise, with `auth_date` the parsed milliseconds and the four fields taken from the payload |
| InitData.ValidateInitData | server/src/validateInitData.ts:36-100 | an empty payload gives `initData missing` whatever the token; then an empty token gives `bot token missing`; a malformed encoding throws; otherwise the parameter checks decide; every reason is one of the six |
| InitData.VerifiedIsAuthentic | server/src/validateInitData.ts:60-76 | an accepted payload's hash decodes to HMAC(HMAC("WebAppData", token), data-check string), and its `auth_date` is non-zero and at most 24 hours old |
| InitData.HashOfSignedPayload | server/src/validateInitData.ts:47-51 | appending one `hash` pair to pairs without one makes `get` return it and `delete` restore the pairs |
| InitData.SignedPayloadVerified | server/src/validateInitData.ts:47-99 | pairs signed with the token-derived key and a fresh non-zero `auth_date` are accepted, returning the parsed `auth_date` |
| InitData.TamperedPayloadRejected | server/src/validateInitData.ts:60-66 | a hash signed for other pairs whose HMAC differs gives `hash mismatch` |
| InitData.Expired | server/src/validateInitData.ts:73-74 | expired exactly when the age `now - auth_date` exceeds 24 hours in milliseconds |
| InitData.ExpiredStaysExpired | server/src/validateInitData.ts:73-74 | an expired date stays expired at every later time, and every older date is expired too |
| InitData.ExpiryBoundary | server/src/validateInitData.ts:73-76 | an age of exactly 24 hours is accepted, 24 hours and 1 ms is expired, future dates are accepted |
| InitData.HashWithTrailingTextMatches | server/src/validateInitData.ts:27-34 | a correct hex hash followed by text that decodes to no bytes still passes the signature step |
| InitData.DataCheckStringAmbiguous | server/src/validateInitData.ts:55 | key `a=b` with value `c` and key `a` with value `b=c` sign the same string |
| JsString.StartsWith | src/domain/pulse.ts:39-47 | `startsWith`: the pattern is no longer than the text and is its leading part |
| JsString.Includes | bot/src/index.ts:134-152 | `includes`: the pattern occurs at some position; `IncludesIffOccurrence` states the equivalence |
| JsString.ReplaceFirst | src/domain/pulse.ts:44-48 | a text starting with the pattern has that occurrence replaced; a text without the pattern is returned unchanged |
| Pulse.ParseStartParam | src/domain/pulse.ts:32-53 | `raw` is the trimmed input; each mode holds exactly when its prefix matches (daily before retro before incident); the label follows the mode; details are present exactly for retro, or for incident with a non-empty remainder, and hold the remainder with `_` as spaces |
| Pulse.ReplaceLeadingPrefix | src/domain/pulse.ts:44 | replacing the first occurrence of a prefix the text starts with removes exactly that prefix |
| Pulse.PrefixesExclusive | src/domain/pulse.ts:39-50 | no text starts with two of the three prefixes |
| Pulse.ModeFollowsRuleTable | src/domain/pulse.ts:39-52 | the mode is the first matching entry of the prefix table daily, retro, incident, or `unknown` |
| Pulse.ParseStable | src/domain/pulse.ts:33 | parsing the returned `raw` gives the same context |
| Pulse.BlankParamIsUnknown | src/domain/pulse.ts:33-37 | an absent or all-white-space parameter gives raw `''`, mode `unknown`, label `Неизвестный режим`, no details |
| Pulse.CleanParamKept | src/domain/pulse.ts:33 | a parameter without surrounding white space is kept as `raw` unchanged |
| Pulse.RetroParamDetails | src/domain/pulse.ts:32-45 | `retro_` followed by a remainder that has no `_` and does not end in white space gives mode retro with that remainder as details; a bare `retro_` gives empty details (trailing white space would be trimmed first) |
| Pulse.IncidentParamDetails | src/domain/pulse.ts:32-50 | `incident_` followed by a non-empty remainder that has no `_` and does not end in white space gives mode incident with that remainder as details (trailing white space would be trimmed first) |
| Pulse.ParseDailyExample | src/domain/pulse.test.ts:5-9 | `daily_today` gives mode daily, label `Daily check-in`, no details |
| Pulse.ParseRetroExample | src/domain/pulse.test.ts:11-16 | `retro_sprint12` gives mode retro with details `sprint12` |
| Pulse.ParseIncidentExample | src/domain/pulse.test.ts:11-18 | `incident_INC-481` gives mode incident with details `INC-481` |
| Bot.KeepPayloadChars | bot/src/index.ts:32 | the filter keeps only `[A-Za-z0-9_-]` and never lengthens |
| Bot.KeepPayloadCharsAppend | bot/src/index.ts:32 | filtering distributes over concatenation, so kept characters stay in order |
| Bot.KeepPayloadCharsClean | bot/src/index.ts:32 | filtering a clean text returns it unchanged |
| Bot.SanitizePayload | bot/src/index.ts:31-34 | the result is clean, non-empty and at most 512 characters; `daily` when nothing survives the filter, else the first min(512, k) surviving characters |
| Bot.SanitizeCleanUnchanged | bot/src/index.ts:31-34 | a clean non-empty payload of at most 512 characters is returned unchanged |
| Bot.SanitizeIdempotent | bot/src/index.ts:31-34 | sanitizing twice equals sanitizing once |
| Bot.SanitizeKeepsCleanPrefix | bot/src/index.ts:32 | a clean prefix of at most 512 characters survives at the head of the result |
| Bot.SanitizeDropsPunctuation | bot/src/index.ts:31-34 | `a b/c` is sanitized to `abc` |
| Bot.SanitizeFallback | bot/src/index.ts:33 | an input with no allowed character gives exactly `daily` |
| Bot.KeepPayloadCharsFromRaw | bot/src/index.ts:32 | every character the filter keeps is an allowed character of the input |
| Bot.SanitizeCutsLong | bot/src/index.ts:32 | a clean input longer than 512 characters is cut to its first 512 |
| Bot.MakeStartAppLink | bot/src/index.ts:36-41 | an absent or empty payload gives `https://max.ru/<bot>?startapp` with no `=`; otherwise that link + `=` + the sanitized payload |
| Bot.StartAppLinkRoundTrip | bot/src/index.ts:36-41 | the `startapp` value read back from a link is the sanitized payload, or nothing when the payload was empty |
| Bot.ChooseRoute | bot/src/index.ts:133-162 | on the lower-cased text, `daily` wins over `retro` over `incident`; with none of them the menu is sent |
| Bot.CleanPayloadKeepsContext | bot/src/index.ts:40 | for a clean payload the link opens the same context the payload itself names |
| Bot.HintFor | bot/src/index.ts:133-160 | each routed mode's hint payload is clean, non-empty and within the 512-character limit, so the sanitizer keeps it unchanged |
| Bot.DailyHintOpensDaily | bot/src/index.ts:134-141 | the daily hint's link opens the daily mode |
| Bot.RetroHintOpensRetro | bot/src/index.ts:143-150 | the retro hint's link opens the retro mode |
| Bot.IncidentHintOpensIncident | bot/src/index.ts:152-159 | the incident hint's link opens the incident mode |
| Bot.HintLinkOpensMode | bot/src/index.ts:133-160 | whichever keyword the message carries, the hint's link opens that keyword's mode |
| Storage.EntryFromJson | src/lib/storage.ts:14-27 | a value is kept exactly when it is an object whose six fields have the declared string and number types |
| Json.RoundTripsSatisfiable | src/lib/storage.ts:39 | for every value there is a codec that round-trips it (and rejects other text), so the read-back hypothesis excludes no written list |
| Storage.EntryRoundTrip | src/lib/storage.ts:14-27 | a written entry is read back as itself |
| Storage.EntriesToJson | src/lib/storage.ts:39 | the stored array holds one object per entry, in order |
| Storage.FilterEntries | src/lib/storage.ts:14-27 | the loader keeps only well-formed elements, never more than the array holds |
| Storage.FilterEntriesAppend | src/lib/storage.ts:14-27 | filtering is order-preserving: it distributes over concatenation |
| Storage.FilterWrittenEntries | src/lib/storage.ts:14-27 | loading an array of written entries gives them all back, in order |
| Storage.FilterKeepsWellFormed | src/lib/storage.ts:14-27 | every well-formed element of the array is in the loaded list: the loader drops only malformed records |
| Storage.ParseEntries | src/lib/storage.ts:3-31 | missing or empty text, unparseable JSON and non-arrays give the empty list; an array gives its well-formed elements in order |
| Storage.LoadEntries | src/lib/storage.ts:33-35 | a missing key loads the empty list; a stored array loads every one of its well-formed elements |
| Storage.AddEntry | src/lib/storage.ts:37-41 | the new entry comes first, then the loaded entries in order, at most 20 in total; that list is written under the key; other keys are untouched |
| Storage.ClearEntries | src/lib/storage.ts:43-45 | the key is removed and every other key keeps its text |
| Storage.LoadAfterAdd | src/lib/storage.ts:33-41 | loading right after adding returns the list the add returned, whenever the codec round-trips that list |
| Storage.FirstAddReadsBack | src/lib/storage.ts:33-41 | the hypothesis of `LoadAfterAdd` can be met: a first add into empty storage, under a codec that round-trips the written list, reads back as exactly that entry |
| Storage.LoadAfterClear | src/lib/storage.ts:33-45 | loading right after clearing returns the empty list |
| Storage.AddKeepsOtherKeys | src/lib/storage.ts:37-41 | adding under one key leaves what every other key loads unchanged |
| Storage.ClearKeepsOtherKeys | src/lib/storage.ts:43-45 | clearing one key leaves what every other key loads unchanged |
| Storage.AddTwice | src/lib/storage.ts:37-41 | when the codec round-trips the first add's list, a second add puts the later entry first and the earlier second |
| PulseScreen.GetPreview | src/screens/PulseScreen.tsx:36-42 | never more than 80 characters; a trimmed comment of at most 80 is returned whole, a longer one becomes its first 77 characters and `...` |
| PulseScreen.PreviewIdempotent | src/screens/PulseScreen.tsx:36-42 | a preview is its own preview |
| PulseScreen.GetPlaceholder | src/screens/PulseScreen.tsx:23-34 | the default prompt is returned exactly for modes other than daily, retro and incident |
| PulseScreen.PlaceholderPerMode | src/screens/PulseScreen.tsx:23-34 | only the unknown mode gets the default prompt, and the three named modes get three different prompts |
| PulseScreen.BuildShareText | src/screens/PulseScreen.tsx:51-54 | states the template's layout itself: `Pulse: `, the mood emoji and mood, then the comment's preview in quotes, then the label in parentheses, with the length bounded by the 80-character preview |
| PulseScreen.ShareTextDeterminesLabel | src/screens/PulseScreen.tsx:51-54 | for one entry, two labels give the same share text exactly when they are equal |
| PulseScreen.MoodEmoji | src/screens/PulseScreen.tsx:52 | `🙂` exactly for `good`, `😐` exactly for `ok`, `😫` for any other mood string |
| PulseScreen.MoodEmojiDistinct | src/screens/PulseScreen.tsx:52 | the three moods get three different emoji |
| PulseScreen.StorageKey | src/screens/PulseScreen.tsx:71 | the key is `pulse:` followed by the context stored in the entries |
| PulseScreen.StorageKeyInjective | src/screens/PulseScreen.tsx:71 | two contexts share a history exactly when their entries carry the same context text |
| PulseScreen.DefaultKeyShared | src/screens/PulseScreen.tsx:71 | no parameter and the parameter `default` share a history |
| PulseScreen.Mount | src/screens/PulseScreen.tsx:73-75 | on mounting, the list shown is the context's stored history and nothing is selected |
| PulseScreen.SelectMood | src/screens/PulseScreen.tsx:87-91 | choosing a mood sets it, clears `hasSubmitted` and so makes the screen dirty, and changes nothing else |
| PulseScreen.Dirty | src/screens/PulseScreen.tsx:77 | the closing-protection flag: a comment that is not all white space, or a mood chosen since the last submit |
| PulseScreen.DirtyTracksUnsentInput | src/screens/PulseScreen.tsx:73-77 | a freshly mounted screen is not dirty; after an edit the screen is dirty exactly when the new comment is not all white space or a mood is chosen but not yet submitted |
| PulseScreen.EditComment | src/screens/PulseScreen.tsx:171 | editing changes only the comment |
| PulseScreen.Submit | src/screens/PulseScreen.tsx:93-124 | no mood gives `Выберите настроение.` and a trimmed comment under 3 gives the length message, neither storing anything; otherwise the trimmed entry with context `raw \|\| 'default'` and the mode is added, the list becomes the stored list, the comment clears and the screen is no longer dirty |
| PulseScreen.NewEntry | src/screens/PulseScreen.tsx:109-116 | the stored entry carries the given id and time, the non-empty context `raw \|\| 'default'`, the mode and mood names, and the trimmed comment, which trimming again leaves unchanged |
| PulseScreen.TransitionsKeepSynced | src/screens/PulseScreen.tsx:73-122 | mounting, choosing a mood, editing and submitting keep the list shown equal to what storage holds for the key; for a submit, whenever the codec round-trips the list written |
| PulseScreen.EntryStoredUnderItsContext | src/screens/PulseScreen.tsx:109-118 | an entry is stored under `pulse:` followed by its own `context` field |
| PulseScreen.RejectedSubmitStoresNothing | src/screens/PulseScreen.tsx:96-107 | a rejected submit leaves storage and the list shown unchanged and sets one of the two warning messages |
| HistoryScreen.StorageKey | src/screens/HistoryScreen.tsx:37 | the key is `pulse:` followed by the raw context, or by `default` when that is empty |
| HistoryScreen.SameKeyAsPulseScreen | src/screens/HistoryScreen.tsx:37 | the History screen's key equals the Pulse screen's key for every context |
| HistoryScreen.Tally | src/screens/HistoryScreen.tsx:15-21 | the left-to-right fold counts, for each of the three moods, exactly the entries carrying it |
| HistoryScreen.CountsAddUp | src/screens/HistoryScreen.tsx:15-21 | the three counts add up to at most the number of entries, and to exactly it when every mood is one of the three |
| HistoryScreen.TallyTotal | src/screens/HistoryScreen.tsx:15-21 | the fold's total equals the number of entries exactly when every mood is good, ok or bad |
| HistoryScreen.Recent | src/screens/HistoryScreen.tsx:11 | the summarised entries are the first min(5, n) entries |
| HistoryScreen.BuildSummary | src/screens/HistoryScreen.tsx:10-23 | the empty text appears exactly when there are no entries; otherwise the per-mood counts among the first five entries and how many were looked at |
| HistoryScreen.SummaryIgnoresOlder | src/screens/HistoryScreen.tsx:11 | entries after the fifth never change the summary |
| HistoryScreen.SummaryCountsAddUp | src/screens/HistoryScreen.tsx:15-22 | with known moods, the three counts in the summary add up to the `последние N` figure |
| HistoryScreen.UnknownMoodCountedNowhere | src/screens/HistoryScreen.tsx:16-17 | an entry with any other mood string adds to none of the three counts |
| HistoryScreen.Mount | src/screens/HistoryScreen.tsx:39-41 | on mounting, the list shown is the context's stored history |
| HistoryScreen.HandleClear | src/screens/HistoryScreen.tsx:59-63 | the key is removed from storage, every other key is kept, the list becomes empty and the status is `История очищена.` |
| HistoryScreen.ClearKeepsSynced | src/screens/HistoryScreen.tsx:59-63 | after clearing, the list shown equals what storage loads, and every other context loads what it did before |
| HistoryScreen.HistorySeesSubmission | src/screens/HistoryScreen.tsx:37-41 | after a submit on the Pulse screen, the History screen for the same start parameter shows the same list, headed by the new entry, whenever the codec round-trips that list |

## Left out

- **Strings.** Strings are sequences of Unicode scalar values. JavaScript measures `length`, `slice` and the 80/77 preview limits in UTF-16 code units, so these differ for characters outside the Basic Multilingual Plane. The 512 limit of the payload sanitizer applies after the filter has kept only ASCII characters, so it agrees in both measures.
- **Sort order.** `StringOrder.LessEq` compares characters by code point. JavaScript's default `sort` compares UTF-16 code units. The two orders agree except for characters above U+FFFF.
- **Lower-casing.** `JsString.ToLowerAscii` lower-cases only ASCII letters, whereas `toLowerCase` follows full Unicode case mapping. The three keywords routed on are ASCII.
- **Platform primitives.** HMAC-SHA256, UTF-8 encoding, `decodeURIComponent`, `URLSearchParams` parsing, `Number`, `JSON.parse` and `JSON.stringify` are left unimplemented because they are platform code. They are parameters. Three kinds of statement place hypotheses on them. `InitData.SignedPayloadVerified` assumes the HMAC digest of the signed pairs is non-empty. `InitData.TamperedPayloadRejected` assumes the original digest is non-empty and that the tampered pairs' HMAC differs from it, i.e. no collision. The read-back lemmas take `Json.RoundTrips` of the written list.
- **Timing-safety.** The timing-safety of `crypto.timingSafeEqual` is not expressible here. `Hex.TimingSafeEqual` states only that it computes equality. The validator's model uses the function `Hex.ConstantTimeEqual`, and `Hex.CompareHexDigests` shows that the loop-based comparison computes the same value.
- **Hex decoding.** `Hex.HexDecode` follows Node's hex decoding for ASCII text: it stops at the first pair that is not two hex digits and drops a lone final digit. Node's treatment of non-ASCII characters before decoding is not modelled.
- **Numbers.** Numbers are exact reals. Floating-point rounding of `auth_date * 1000`, of `Date.now() - authDate` and of stored `ts` values is not modelled.
- **Extra JSON properties.** `Storage.EntryFromJson` keeps the six declared fields of a stored record and drops any other properties. The source's filter would return the record object with its extra properties still attached.
- **Storage failures.** `localStorage.setItem` failures (quota, privacy mode) and concurrent writers in other tabs are not modelled.
- **The `warning` field.** `ValidationResult.warning` is declared but never set by the source, so `InitData.ValidationResult` has no such field.
- **`buildContext`.** It is the `Pulse.PulseContext` constructor. Its optional `details` is `Option<string>`, and the `label` field is named `modeLabel` because `label` is reserved in Dafny.
- **UI and bot runtime.** React rendering, haptics, sharing, clipboard export, closing protection calls and `popstate` handling are not modelled. Neither are the bot's command and action dispatch, `buildMenu`, keyboard layout, `sendMessage`, logging and environment loading. The HTTP server wiring is also out.
- **Non-determinism.** `buildId()`, `Date.now()` and `toLocaleString` are left out as non-deterministic; ids and times are parameters.
- **Storage shape.** Storage is a map from keys to JSON text, and the list structure is recovered through the loader. `Storage.LoadAfterAdd`, `Storage.AddTwice`, `PulseScreen.TransitionsKeepSynced` and `HistoryScreen.HistorySeesSubmission` are proved under the hypothesis that the codec round-trips the list written (`Json.RoundTrips`). The model does not show that `JSON.stringify`/`JSON.parse` meet this for every list: that depends on timestamps being finite doubles, and floating point is outside the model.
- **Bot name.** `Bot.MakeStartAppLink` takes the bot name as a parameter rather than reading `BOT_NAME` from the environment.
