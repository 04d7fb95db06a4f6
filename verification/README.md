# Link resolver worker: a verified model of its request logic

The worker is a small Express server (`src/worker.js`). `GET /api/t?url=…`
takes a download-page URL and does four things:

- rewrites the URL to the backend's endpoint (`replaceUrl`);
- works out the file name (`extractFileNameFromUrl`);
- POSTs five payload variants to the backend (direct, gdrive, second, pix, nc);
- answers with one resolved link, or null, per variant.

The payloads carry a token, a user id `u` and a version `v`. At startup these
are pulled out of a script's text by `extractStaticPayloadParameters`.

This project models that logic in Dafny, with the network, the file system and
the URL parser as inputs. The modules are:

- `Wrappers` (`wrappers.dfy`): `Option`.
- `Text` (`text.dfy`): the two JavaScript string operations the rewriter uses.
  - `String.prototype.includes`.
  - `String.prototype.replace` with a string pattern, which replaces only the
    leftmost occurrence.
  - `IndexOf` and `ReplaceFirst` are characterised by the leftmost occurrence.
- `Rewrite` (`rewrite.dfy`): `replaceUrl`.
  - The server table has nine entries and the first entry whose source occurs
    wins; the loop breaks after it.
  - The extension table has five pairs. Each is applied in order, and only
    when its source occurs and its target does not yet occur.
- `Percent` (`percent.dfy`): `decodeURIComponent`, with `%XY` escapes and
  UTF-8 validation. Its partner is `encodeURIComponent`, which is used to
  prove the round trip.
- `FileName` (`filename.dfy`): `extractFileNameFromUrl`.
  - The URL parser is abstracted to "a pathname, or a parse failure".
  - Any failure gives `unknown_file`.
- `Credentials` (`credentials.dfy`): the three unanchored regular expressions
  of `extractStaticPayloadParameters`, written as leftmost scanners. The
  all-or-nothing result is modelled, and `parseInt` is read as the value of
  the decimal digits.
  - `Render` writes a script that holds given credentials. It is used to
    prove that extraction recovers them.
- `Handler` (`handler.dfy`): the `/api/t` route.
  - Inputs: the `url` query value, the three globals, the URL parser and the
    backend, a function from a call (endpoint, referer, body) to a `Reply`.
  - It validates the `url` first, then the globals.
  - It builds the five payloads and makes one call per variant.
  - It picks `url || mega || null` from each answer.
  - It merges the answers by key.

Two behaviours worth noting:

- The fallback file name is returned on a malformed percent-escape as well as
  on a URL parse failure, because `decodeURIComponent` sits inside the same
  `try`.
- An empty `url` is rejected with 400 just like a missing one, because the
  test is `!url`.

## Model

| member | source | states |
|---|---|---|
| Text.IndexOf | src/worker.js:115 | the index found is the leftmost occurrence of the pattern, and None means the pattern occurs nowhere |
| Text.IncludesIff | src/worker.js:115 | `includes` holds exactly when the pattern occurs at some position |
| Text.ReplaceFirst | src/worker.js:116 | a string pattern replaces only its leftmost occurrence: prefix before it, then the replacement, then the rest; a string without the pattern is returned unchanged |
| Text.ReplaceFirstKeeps | src/worker.js:134 | after a replacement, anything the replacement contains is present in the result |
| Text.ReplaceFirstIntroduces | src/worker.js:134 | replacing a pattern that occurs puts the replacement text into the result |
| Text.IndexOfAfterPrefix | src/worker.js:116 | in `x + p + y`, where `x` followed by all but the last character of `p` does not contain `p`, the first occurrence of `p` is right after `x` |
| Text.NotIncludesLonger | src/worker.js:133 | a string that lacks a prefix of `p` lacks `p` |
| Text.OccurrenceOutside | src/worker.js:134 | an occurrence lying wholly before or wholly after a replaced stretch survives the replacement |
| Rewrite.ServerPassFirstMatch | src/worker.js:102-119 | when entry k is the first entry whose source occurs, the server pass is exactly one leftmost replacement of entry k; no later entry is examined |
| Rewrite.ServerPassNoMatch | src/worker.js:114-119 | when no server source occurs, the server pass leaves the URL unchanged |
| Rewrite.ServerPass | src/worker.js:114-119 | with no server source present the URL is left as it is; `Rewrite.ServerPassFirstMatch` states that otherwise exactly the first matching entry fires, once |
| Rewrite.GuardedStep | src/worker.js:131-135 | a pair that does not fire (source absent or target already present) leaves the URL as it was; one that fires leaves its target in the result |
| Rewrite.GuardedStepIdempotent | src/worker.js:131-135 | applying the same extension pair twice is the same as applying it once, so every pair acts at most once |
| Rewrite.GuardedStepSkipsPresentTarget | src/worker.js:132-133 | a pair whose target is already present never fires |
| Rewrite.ExtensionPassNoMatch | src/worker.js:131-136 | when no extension source occurs, the extension pass leaves the URL unchanged |
| Rewrite.ExtensionPassSplit | src/worker.js:131-136 | the extension pass is the pairs applied one after another in table order: any prefix of the table, then the rest |
| Rewrite.ExtensionPass | src/worker.js:131-136 | with no extension source present the URL is left as it is; `Rewrite.ExtensionPassSplit`, `Rewrite.GuardedStep` and `Rewrite.GuardedStepIdempotent` state that the pairs act in table order, each at most once and only when guarded, and `Rewrite.ExtensionPassIdempotent` that a second pass changes nothing |
| Rewrite.BotMp4SuppressesPlain | src/worker.js:124-125 | once the bot-specific `.mp4` form fires, the generic `.mp4` pair is suppressed |
| Rewrite.BotMkvSuppressesPlain | src/worker.js:126-127 | once the bot-specific `.mkv` form fires, the generic `.mkv` pair is suppressed |
| Rewrite.ReplaceUrlPassThrough | src/worker.js:98-139 | a URL containing no server source and no extension source comes back unchanged |
| Rewrite.ReplaceUrl | src/worker.js:98-139 | a URL containing no source of either table comes back unchanged; `Rewrite.ReplaceUrlServer5Mp4` and `Rewrite.ReplaceUrlZip` state what a matching URL becomes |
| Rewrite.VideoRulesSilent | src/worker.js:124-127 | the four video rules leave a URL without `.mp4` and `.mkv` unchanged |
| Rewrite.ReplaceUrlZip | src/worker.js:123-136 | on a URL with no server source and no `.mp4` or `.mkv`: when `?ext=zip` is absent, exactly its first `.zip` is replaced by `?ext=zip`; when `?ext=zip` is already present, nothing changes (so `x?ext=zip.zip` stays as it is) |
| Rewrite.MkvZipInert | src/worker.js:126-128 | the `.mkv` and `.zip` pairs do nothing to a URL without `k` and `z` |
| Rewrite.Server5HostChars | src/worker.js:103 | the server5 target contains none of `?`, `4`, `k`, `z`, so no bot, `.mkv` or `.zip` rule can match inside it |
| Rewrite.BotMp4Silent | src/worker.js:124 | the bot-specific `.mp4` rule never fires on a URL without `?` |
| Rewrite.PlainMp4OnName | src/worker.js:125 | on `name.mp4`, for a name holding no `?` and no `4`, the generic pair yields `name?ext=mp4` (for a name like `y.mp4` it would rewrite the first `.mp4` instead) |
| Rewrite.Mp4RulesOnName | src/worker.js:124-125 | on `name.mp4`, for a name holding no `?` and no `4`, the two `.mp4` pairs yield `name?ext=mp4` |
| Rewrite.ExtensionPassPlainMp4 | src/worker.js:123-136 | the whole extension pass on `name.mp4`, for a name without `?`, `4`, `k`, `z`, yields `name?ext=mp4` |
| Rewrite.ServerPassServer5 | src/worker.js:103-119 | a URL starting with the server5 source gets only that prefix swapped for the backend's server5 path |
| Rewrite.ReplaceUrlServer5Mp4 | src/worker.js:98-139 | `https://google.com/server5/1:/NAME.mp4` becomes `https://drive2.cscloud12.online/server5/NAME?ext=mp4`; for example `…/server5/1:/movie.mp4` becomes `…/server5/movie?ext=mp4` |
| Rewrite.SourceAvoidsTarget | src/worker.js:123-129 | an occurrence of an extension source in text holding a target never overlaps that target: a `.` cannot fall inside a target, and a target's leading `?e` cannot continue a source |
| Rewrite.TargetAvoidsSource | src/worker.js:123-129 | an occurrence of a target in text holding a source never overlaps that source, for the same reasons |
| Rewrite.StepCreatesNoSource | src/worker.js:131-135 | a step of the extension loop never creates an occurrence of any extension source |
| Rewrite.StepKeepsTarget | src/worker.js:131-135 | a step of the extension loop never destroys an occurrence of any extension target |
| Rewrite.PassKeepsInert | src/worker.js:131-136 | a pair that cannot fire (source absent or target present) still cannot fire after the pass |
| Rewrite.PassLeavesInert | src/worker.js:131-136 | after the pass, no pair of the table can fire |
| Rewrite.PassOnInert | src/worker.js:131-136 | a pass in which no pair can fire leaves the URL unchanged |
| Rewrite.ExtensionRulesShaped | src/worker.js:123-129 | every source of the extension table starts with `.` and has no `?` followed by `e`; every target starts with `?e` and holds no `.` |
| Rewrite.ExtensionPassIdempotent | src/worker.js:131-136 | the extension pass is idempotent: applying it to its own result changes nothing, for every URL |
| Percent.HexDigit | src/worker.js:154 | the hex digit written for a value below 16 reads back as that value |
| Percent.LowerHexDigit | src/worker.js:154 | the lower-case hex digit for a value below 16 also reads back as that value, as section 2.1 of RFC 3986 makes digit case insignificant; for values 10 to 15 it differs from the upper-case digit |
| Percent.LeadingOctet | src/worker.js:154 | an escape is read exactly when the text starts with `%` and two hex digits of either case, and it gives an octet; `Percent.EscapedOctet` and `Percent.EscapedOctetLower` fix its value for upper- and lower-case digits |
| Percent.EscapedOctet | src/worker.js:154 | `%XY` written with the upper-case digits of an octet is read as that octet |
| Percent.EscapedOctetLower | src/worker.js:154 | `%xy` written with the lower-case digits of an octet is read as that octet too: `%2f` is `/` |
| Percent.LeadingOctets | src/worker.js:154 | n escapes can be read exactly when the first 3n characters are n `%XY` escapes; then it yields n octets, the m-th being the value of the m-th escape |
| Percent.Decode | src/worker.js:154 | a successful decode is never longer than its input |
| Percent.Utf8RoundTrip | src/worker.js:154 | the UTF-8 octets of any character pass validation and decode back to it |
| Percent.LeadingOctetsOfEscaped | src/worker.js:154 | escaped octets read back as the same octets, and reading stops exactly after them |
| Percent.DecodeEncodeChar | src/worker.js:154 | decoding an encoded character yields that character ahead of the decoded rest |
| Percent.DecodeEncode | src/worker.js:154 | `decodeURIComponent(encodeURIComponent(s)) == s` for every string |
| Percent.DecodePlain | src/worker.js:154 | text without `%` decodes to itself |
| Percent.EncodeAlphabet | src/worker.js:154 | encoded text holds only unreserved characters and `%` |
| Percent.Encode | src/worker.js:154 | the partner of `decodeURIComponent`: each character becomes 1 to 12 characters, and text of unreserved characters is left as it is; `Percent.DecodeEncode` states that decoding undoes it |
| Percent.DecodeRejectsBadEscape | src/worker.js:154-155 | a `%` not followed by two hex digits makes decoding fail, whatever precedes it |
| FileName.LastSegment | src/worker.js:151 | the segment is the suffix after the last `/`: it contains no `/` and is preceded by one, or it is the whole path |
| FileName.BeforeQuery | src/worker.js:153 | the head is the prefix before the first `?`: it contains no `?` and is followed by one, or it is the whole segment |
| FileName.ExtractFileName | src/worker.js:147-158 | a URL the parser rejects yields exactly `unknown_file` |
| FileName.LastSegmentAfterSlash | src/worker.js:151 | the last segment of `dir/seg`, where `seg` has no `/`, is `seg` |
| FileName.ExtractEncodedName | src/worker.js:147-154 | a path ending in `/` followed by `encodeURIComponent(name)` yields `name`, for every name |
| FileName.ExtractPlainName | src/worker.js:151-154 | a last segment without `/`, `?` or `%` is the file name itself |
| FileName.ExtractMalformedEscape | src/worker.js:154-157 | a malformed escape anywhere in the last segment yields exactly `unknown_file` |
| FileName.ExtractDocExample | src/worker.js:143 | the example in the function's doc comment: pathname `/path/to/file.mp4` gives `file.mp4` |
| FileName.ExtractMovieExample | src/worker.js:147-154 | example: the pathname `/server5/1:/movie.mp4` of a server-5 link gives `movie.mp4` |
| Credentials.RunEnd | src/worker.js:25-27 | a greedy run: every character up to the end satisfies the class, and the character at the end does not |
| Credentials.CaptureAt | src/worker.js:25-27 | a match at a position starts with the key; the capture is nonempty, quote-free for `token`/`u`, all digits for `v`; `Credentials.CaptureAtQuoted` and `Credentials.CaptureAtDigits` state that it captures exactly what the regular expression does |
| Credentials.CaptureAtQuoted | src/worker.js:25-26 | the quoted scanner captures `cap` at a position exactly when the key stands there, then only white space, a quote, the nonempty quote-free `cap` and a closing quote |
| Credentials.CaptureAtDigits | src/worker.js:27 | the digits scanner captures `cap` at a position exactly when the key stands there, then only white space, then `cap` as the longest run of digits there |
| Credentials.Search | src/worker.js:25-27 | `match` finds the leftmost position where the pattern matches, and finds nothing exactly when there is no such position |
| Credentials.ExtractStaticParameters | src/worker.js:24-37 | nothing is returned exactly when one of the three patterns has no match; otherwise token and `u` are the captures of the leftmost matches, nonempty and quote-free, and `v` is the value of the leftmost digit capture |
| Credentials.DecimalText | src/worker.js:33 | the partner of `parseInt`, which writes a number's decimal numeral: a nonempty run of digits; `Credentials.DecimalRoundTrip` states that `parseInt` reads it back |
| Credentials.DecimalValue | src/worker.js:33 | `parseInt` of k digits is below ten to the k, and zero for a run of zeros; `Credentials.DecimalValuePrepend` states the positional value of every run |
| Credentials.DecimalValuePrepend | src/worker.js:33 | read from the front, the first of k+1 digits counts its value times ten to the k, plus the value of the rest; with the empty run worth 0 this fixes the value of every digit run |
| Credentials.DecimalLeadingZero | src/worker.js:33 | a leading zero does not change the value: `v: 07` gives 7 |
| Credentials.DecimalRoundTrip | src/worker.js:33 | `parseInt` of a number's decimal text gives the number back |
| Credentials.SearchFinds | src/worker.js:25-27 | a match with no earlier occurrence of the key is the leftmost match |
| Credentials.RenderedToken | src/worker.js:25 | in a rendered script the token pattern matches at the start, capturing the token |
| Credentials.RenderedUser | src/worker.js:26 | in a rendered script the `u` pattern's leftmost match captures the user id |
| Credentials.RenderedVersion | src/worker.js:27 | in a rendered script the `v` pattern's leftmost match captures the version's digits |
| Credentials.ExtractRendered | src/worker.js:24-37 | extraction recovers every quote-free, colon-free credentials from a script that states them |
| Handler.Initialize | src/worker.js:43-59 | a failed read leaves the globals unset; otherwise they are either all unset or all set to what the extractor found in the script |
| Handler.Configured | src/worker.js:176-178 | credentials are available exactly when token and user id are nonempty and the version is not null, and then they equal the globals; a version of 0 is usable |
| Handler.InitializeConfigures | src/worker.js:43-59 | the globals startup leaves pass the handler's check exactly when the script was read and all three patterns matched, and then they hold the extracted values |
| Handler.Payload | src/worker.js:185-202 | each body has the four static fields, with the globals and the file name, plus exactly its variant's flags set to true |
| Handler.FanOut | src/worker.js:180-205 | five calls, one per variant, each to `replaceUrl(url)` with the original URL as referer and a body with the static fields, the file name and exactly its variant's flags; `Handler.PayloadsDistinct` states that the five bodies differ |
| Handler.PayloadsDistinct | src/worker.js:185-202 | no flag overwrites a static field, and different variants send different bodies |
| Handler.Resolve | src/worker.js:204-211 | a link is a nonempty `url` or `mega` of an answer; a truthy `url` wins; a failed call or an answer without either gives null |
| Handler.KeysOf | src/worker.js:219-221 | the keys of a list of pairs are exactly the first components |
| Handler.ComposeLastWins | src/worker.js:218-221 | the merge keeps the entries it starts from, adds every key of the pairs, and gives each key the value of its last pair |
| Handler.Compose | src/worker.js:218-221 | the merge has the keys it started with plus the keys of the pairs; `Handler.ComposeLastWins` states which value each key ends with |
| Handler.Key | src/worker.js:185-191 | every variant reports under one of the five result keys |
| Handler.VariantPairs | src/worker.js:185-194 | the pairs follow variant order, keyed by the variant's name |
| Handler.MergeVariants | src/worker.js:215-221 | merging one result per variant gives exactly the five keys, each with its own variant's result |
| Handler.ResolveAll | src/worker.js:194-215 | one link per call, each depending only on its own call's reply |
| Handler.HandleRejectsMissingUrl | src/worker.js:171-173 | a missing or empty `url` gives 400 with the fixed message and no backend call, whatever the globals |
| Handler.HandleRejectsUnconfigured | src/worker.js:176-178 | with a `url` but an empty or missing token or user id, or a null version, the answer is 500 with no backend call |
| Handler.HandleValidation | src/worker.js:171-178 | the answer is an error exactly when the `url` or a global is unusable, and errors make no backend call; a version of 0 is usable |
| Handler.HandleFansOut | src/worker.js:180-205 | on success: five calls to `replaceUrl(url)` with the original URL as referer, each carrying its variant's payload with the file name of the original URL; `processedUrl` is `replaceUrl(url)` |
| Handler.HandleMergesResults | src/worker.js:194-228 | on success `results` has exactly the keys direct, gdrive, second, pix and nc, each holding what its own call resolved to |
| Handler.HandleIsolatesCalls | src/worker.js:204-212 | a call that fails leaves null under its own key only, and changing one call's answer changes no other key |
| Handler.HandleApiT | src/worker.js:168-237 | an error exactly when `url` is missing or empty or the globals are unusable, with no backend call; otherwise five calls and `results` with exactly the five keys, for the requested URL and `replaceUrl` of it; `Handler.HandleMergesResults` and `Handler.HandleIsolatesCalls` state what each key holds |

## Left out

- The Express setup, route registration, JSON middleware and `app.listen`
  (src/worker.js:10-11,165,240-248) are framework plumbing. The handler is a
  function from the request's `url` value to the calls made and the response.
- Reading the script file at startup (src/worker.js:43-59) is file I/O. The
  model takes its text, or a read failure, as input (`Handler.Initialize`).
  Console messages are not modelled.
- `sendApiRequest` (src/worker.js:69-90) is an HTTP POST with fixed browser
  headers. The model replaces it with a `backend` function from the call to a
  `Reply`. `Failed` stands for any throw: network error, non-2xx status or
  unparsable body.
- JSON decoding of the backend's answer is not modelled. `url` and `mega` are
  taken as optional strings; other JSON types in those fields are out of scope.
- `Promise.all` concurrency (src/worker.js:194-215) is not modelled. The merge
  is keyed and each call's result depends only on its own reply, so the calls
  are modelled as a sequential map in variant order.
- All `console.*` logging is left out.
- The internals of the WHATWG URL parser are left out. `FileName.ParsedUrl`
  is the pathname, or a parse failure.
- JavaScript strings are UTF-16. Here a character is a Unicode scalar value,
  so a character outside the Basic Multilingual Plane is one element, not a
  surrogate pair, and lone surrogates cannot occur.
- `parseInt` on a digit string longer than a double's precision rounds. The
  version is modelled as an unbounded natural number.
- `$` substitution patterns in `String.prototype.replace` replacements are not
  modelled. None of the replacement strings in the tables contains `$`.
- The outer `catch` of the handler (src/worker.js:233-236) is not modelled. With
  a string `url` nothing inside its `try` throws: `extractFileNameFromUrl` and
  each call catch their own errors.
- The payloads and the `results` object are modelled as maps, so the key
  order of the JSON the worker sends and answers with is not modelled: `v`,
  `u`, `file`, `token`, then the flags for a payload; `direct`, `gdrive`,
  `second`, `pix`, `nc` for the results.
- A `url` query parameter given as an array or object (repeated or bracketed
  parameters) is out of scope. The model takes the query value as a string or
  absent.
- Rewrite.ReplaceUrlServer5Mp4: proved for names without `?`, `4`, `k` and
  `z`. The general behaviour on other names follows from the table lemmas but
  is not stated as one closed form.
- Percent.Decode: its own contract states only the length bound. Its meaning
  is carried by `Percent.DecodeEncode`, `Percent.DecodePlain` and
  `Percent.DecodeRejectsBadEscape`, rather than by a closed-form
  characterisation of every input.
- FileName.ExtractFileName: its contract states the parse-failure fallback.
  The success and malformed-escape cases are stated by the lemmas
  `FileName.ExtractEncodedName`, `FileName.ExtractPlainName` and
  `FileName.ExtractMalformedEscape`, not for every possible pathname.
- Rewrite.ServerPass: its own contract states only the no-match case. The
  first-match behaviour is stated by `Rewrite.ServerPassFirstMatch`.
- Rewrite.ExtensionPass and Rewrite.ReplaceUrl: their own contracts state
  only the no-match case. The effect of matching pairs, and the idempotence
  of the extension pass, are stated by the lemmas named in their rows. The
  whole of `replaceUrl` is not idempotent, and no lemma claims it: a second
  run can apply a server entry again.
- Handler.Compose: its own contract states only the keys. The value under
  each key is stated by `Handler.ComposeLastWins`.
- Credentials.DecimalValue: its own contract states bounds. Its value on
  every digit run, leading zeros included, is fixed by
  `Credentials.DecimalValuePrepend` together with the empty run being 0.
- Percent.Encode: its own contract states bounds and the identity on
  unreserved text. Its output is fixed by its body alone: it writes
  upper-case `%XY` escapes of the UTF-8 octets of every reserved character.
  `Percent.DecodeEncode` shows only that decoding undoes it, which other
  encoders would also satisfy.
