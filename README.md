# Helm repository wizard: a Dafny model of its page logic

The wizard is a React front end with three pages that lead a user from a GitHub token to a
new Helm chart repository:

- **Connection Center** (`public/pages/connect.tsx`): saved token connections. It makes a
  connection the default, revokes or rotates one, and saves a new one once its token has been
  tested. Making a connection the default and revoking one are optimistic, and each is rolled
  back from a snapshot when its request fails; a save or a rotation changes the list only
  after the server accepts it. It also has a masked token prefix and a "time ago" label.
- **Configure Repo** (`public/pages/repo-config.tsx`): the connection, the owner and the
  repository name. The name is suggested as `Helm-` plus the app name, trimmed, with each
  whitespace run then turned into `-` and every character outside `[A-Za-z0-9_-]` dropped.
  For an organisation owner it also keeps a team search and a list of selected teams with
  their permissions. It decides when "Next" is enabled.
- **Helm Values** (`public/pages/helm-config.tsx`): the chart template's variables. It
  normalizes each definition, guessing its type and whether it is required from its name. It
  pre-fills values from the wizard's context, imports values from JSON or from a `.env` text,
  and blocks "Next" while a required value is missing.

The model has one module per page: `Connections`, `RepoConfig` and `HelmConfig`. Each page's
state is a class whose fields are the page's `useState` variables. Each of its methods is
one handler or effect. Every network request appears as its outcome, passed in as a
parameter: a `Response` (answered, or failed with a message); an `Option` where the page
swallows the failure; a `bool` saying whether the server accepted an optimistic edit; or,
for the Helm page's POST, the thrown error as an `Option`. The pure helpers are functions, and what they promise is stated in
lemmas. The two loops of the Helm page (`buildSuggestions` and `parseEnv`) are methods with
loop invariants. Each is proved against a specification (`IsSuggestionMap`, `EnvOf`) whose
properties are lemmas. Three shared modules hold the JavaScript built-ins the pages rely on:

- `JsText`: `trim`, `toLowerCase`/`toUpperCase`, `includes`, `join`, `replace(/\s+/g, …)` and
  rendering a non-negative integer into a template literal.
- `JsArray`: `filter`, `findIndex`/`find` and `some`.
- `Wrappers`: `Option` and `Response`.

For the app name `"booking service"` the code gives
`"Helm-booking-service"`. The `-` that replaces the space survives the character filter,
because `-` stands last in the class `[A-Za-z0-9_-]` and is therefore a literal. That is also
the field's placeholder (`public/pages/repo-config.tsx:219`).
`RepoConfig.SuggestRepoNameExample` proves the code's result.

## Model

| member | source | states |
|---|---|---|
| `JsArray.Filter` | public/pages/repo-config.tsx:117 | `filter` keeps only passing elements, drawn from the input, and never lengthens it |
| `JsArray.FilterMembers` | public/pages/repo-config.tsx:117 | an element is in the filtered list exactly when it is in the input and passes the test |
| `JsArray.FilterIsSubsequence` | public/pages/repo-config.tsx:126 | `filter` keeps the kept elements in their original order |
| `JsArray.FilterMultiset` | public/pages/connect.tsx:120 | `filter` keeps every occurrence of a passing element and none of a failing one |
| `JsArray.SubsequenceMultiset` | public/pages/repo-config.tsx:126 | a subsequence holds no element more often than its source |
| `JsArray.FilterUnique` | public/pages/repo-config.tsx:117 | order and multiplicity determine the filter: the only subsequence holding every passing occurrence and nothing else is `filter`'s result |
| `JsArray.FilterConcat` | public/pages/repo-config.tsx:385 | filtering a concatenation is concatenating the filtered parts |
| `JsArray.FilterKeepsAll` | public/pages/repo-config.tsx:385 | a filter every element passes returns its input unchanged |
| `JsArray.FilterKeepsDistinct` | public/pages/repo-config.tsx:126 | filtering keeps keys distinct when they were distinct |
| `JsArray.FindIndex` | public/pages/repo-config.tsx:180 | `find`/`findIndex` return the first passing position, or none when no element passes |
| `JsArray.FindIndexAgrees` | public/pages/repo-config.tsx:129 | two searches whose tests agree position by position find the same position |
| `JsArray.AnyIffFound` | public/pages/repo-config.tsx:122 | `some` holds exactly when a search finds a position |
| `JsText.TrimStart` | public/pages/repo-config.tsx:383 | the result is no longer than the input and does not start with whitespace |
| `JsText.TrimStartShape` | public/pages/repo-config.tsx:383 | what is dropped from the front is all whitespace; what is kept is the rest of the text |
| `JsText.TrimEnd` | public/pages/repo-config.tsx:383 | the result is no longer than the input and does not end with whitespace |
| `JsText.TrimEndShape` | public/pages/repo-config.tsx:383 | what is dropped from the end is all whitespace; what is kept is the start of the text |
| `JsText.Trim` | public/pages/repo-config.tsx:383 | `trim` leaves no whitespace at either end |
| `JsText.TrimEmpty` | public/pages/repo-config.tsx:383 | `trim` gives "" exactly for an all-whitespace text |
| `JsText.Lower` | public/pages/repo-config.tsx:116 | `toLowerCase` keeps the length and leaves no upper-case ASCII letter |
| `JsText.Upper` | public/pages/helm-config.tsx:298 | `toUpperCase` keeps the length and leaves no lower-case ASCII letter |
| `JsText.UpperIdempotent` | public/pages/helm-config.tsx:326 | upper-casing an already upper-cased key changes nothing |
| `JsText.IncludesAt` | public/pages/repo-config.tsx:117 | `includes` holds exactly when the text occurs at some position |
| `JsText.TakeWord` | public/pages/repo-config.tsx:384 | the first word is no longer than the text and not empty when the text starts with a non-space |
| `JsText.TakeWordShape` | public/pages/repo-config.tsx:384 | the first word is a whitespace-free prefix followed by whitespace or the end |
| `JsText.WordsAreWords` | public/pages/repo-config.tsx:384 | every word is non-empty and holds no whitespace |
| `JsText.ReplaceAfterWord` | public/pages/repo-config.tsx:384 | `replace(/\s+/g, rep)` leaves a leading whitespace-free part as it is |
| `JsText.ReplaceTrimmed` | public/pages/repo-config.tsx:384 | on a trimmed text the replacement joins its words with `rep` |
| `JsText.TrimStartAppend` | public/pages/repo-config.tsx:383 | how `trimStart` of a concatenation depends on its parts |
| `JsText.TakeWordAppend` | public/pages/repo-config.tsx:384 | how the first word of a concatenation depends on its parts |
| `JsText.WordsAppendSpaces` | public/pages/repo-config.tsx:383-384 | trailing whitespace adds no word |
| `JsText.WordsOfTrim` | public/pages/repo-config.tsx:383-384 | trimming adds or removes no word |
| `JsText.TrimThenReplace` | public/pages/repo-config.tsx:383-384 | `trim().replace(/\s+/g, rep)` is the words joined by `rep`: no `rep` at either end and exactly one per inner whitespace run |
| `JsText.WordsOfJoin` | public/pages/repo-config.tsx:384 | words joined by single spaces are read back as those words |
| `JsText.DecimalString` | public/pages/connect.tsx:493 | a non-negative integer renders as digits with no leading zero |
| `JsText.DecimalRoundTrip` | public/pages/connect.tsx:493 | reading the rendered digits gives the integer back |
| `Connections.MarkDefaultFlags` | public/pages/connect.tsx:105 | after the optimistic step of `setDefault`, an item is flagged exactly when its id is the chosen one, and nothing else changes |
| `Connections.MarkDefaultFlagsOne` | public/pages/connect.tsx:105 | with distinct ids, exactly one item is flagged when the id is listed, none otherwise |
| `Connections.RevokeKeepsOthers` | public/pages/connect.tsx:120 | revoking removes every item with the id and keeps all others, each as often as before, in their order |
| `Connections.RotateTouchesOnlyUpdatedAt` | public/pages/connect.tsx:140-144 | a rotation changes only `updatedAt`, and only on the rotated id |
| `Connections.MaskPrefix` | public/pages/connect.tsx:482-486 | a missing or empty prefix shows `–`; otherwise `****` and the last four characters at most, at most 8 characters |
| `Connections.NestedFloors` | public/pages/connect.tsx:491-496 | flooring to minutes, then hours, then days is flooring straight to hours or days |
| `Connections.FormatAgoBuckets` | public/pages/connect.tsx:488-498 | under a minute (negative included) is "just now"; otherwise minutes, hours or days, each floored |
| `Connections.ConnectionCenter.constructor` | public/pages/connect.tsx:25-34 | the initial state |
| `Connections.ConnectionCenter.EditAlias` | public/pages/connect.tsx:186 | the typed alias |
| `Connections.ConnectionCenter.EditPat` | public/pages/connect.tsx:197 | the typed token |
| `Connections.ConnectionCenter.EditRotatePat` | public/pages/connect.tsx:369 | the typed rotation token |
| `Connections.ConnectionCenter.Load` | public/pages/connect.tsx:45-59 | the listing replaces the items (none listed is empty); a failure shows its message |
| `Connections.ConnectionCenter.HandleTest` | public/pages/connect.tsx:61-79 | a verdict is kept only when the token is fine; otherwise the server's error, or the fallback message |
| `Connections.ConnectionCenter.HandleSave` | public/pages/connect.tsx:81-101 | a saved connection goes first and the form is cleared; a failure changes only the error |
| `Connections.ConnectionCenter.SetDefault` | public/pages/connect.tsx:103-116 | the items are the flagged list when accepted, the snapshot when not |
| `Connections.ConnectionCenter.Revoke` | public/pages/connect.tsx:118-127 | the items are the list without the id when accepted, the snapshot when not |
| `Connections.ConnectionCenter.Rotate` | public/pages/connect.tsx:129-152 | nothing without a new token; on success the new `updatedAt` and a closed form; on failure only the error |
| `Connections.ConnectionCenter.ToggleRotate` | public/pages/connect.tsx:347-350 | the row's rotation form opens, or closes when it was open |
| `Connections.ConnectionCenter.CancelRotate` | public/pages/connect.tsx:382-385 | the rotation form closes and its token is cleared |
| `RepoConfig.SuggestRepoName` | public/pages/repo-config.tsx:379-387 | the suggestion starts with `Helm-` and every later character is in `[A-Za-z0-9_-]` |
| `RepoConfig.SanitizeJoin` | public/pages/repo-config.tsx:385 | the character filter keeps hyphens, so it works word by word |
| `RepoConfig.SuggestRepoNameWords` | public/pages/repo-config.tsx:379-387 | the suggestion is `Helm-` and the app name's words, each filtered, joined by single hyphens |
| `RepoConfig.SuggestRepoNameBlank` | public/pages/repo-config.tsx:380-386 | an empty or all-whitespace app name suggests exactly `Helm-` |
| `RepoConfig.SuggestRepoNameOfWords` | public/pages/repo-config.tsx:382-386 | clean words separated by single spaces come back joined by hyphens |
| `RepoConfig.SuggestRepoNameExample` | public/pages/repo-config.tsx:379-387 | "booking service" suggests `Helm-booking-service`, the placeholder of the name field |
| `RepoConfig.FilterTeams` | public/pages/repo-config.tsx:114-118 | an empty query lists every team |
| `RepoConfig.FilterTeamsMeaning` | public/pages/repo-config.tsx:114-118 | a query keeps, in order and each as often as listed, exactly the teams whose lower-cased `name + slug` contains the lower-cased query |
| `RepoConfig.AddTeamSpec` | public/pages/repo-config.tsx:121-124 | adding appends one entry for a new slug only, with the team's slug and name and "maintain"; existing entries stay as they are and slugs stay unique |
| `RepoConfig.RemoveTeamSpec` | public/pages/repo-config.tsx:125-127 | removing drops exactly the entries with the slug, keeps the rest, each as often as before, in order, and keeps slugs unique |
| `RepoConfig.UpdatePermissionSpec` | public/pages/repo-config.tsx:128-130 | only the permission of the entry with the slug changes, a lookup then returns it, and slugs stay unique |
| `RepoConfig.InitialConnection` | public/pages/repo-config.tsx:52-53 | the first flagged connection, else the first one, else none |
| `RepoConfig.InitialConnectionAfterSetDefault` | public/pages/repo-config.tsx:52-53 | after the Connection Center's `setDefault(id)`, this page starts on the first connection with that id |
| `RepoConfig.RepoConfigPage.constructor` | public/pages/repo-config.tsx:25-41 | the initial state, with the name already suggested for the empty app name |
| `RepoConfig.RepoConfigPage.LoadConnections` | public/pages/repo-config.tsx:46-56 | the listed connections and the initial pick; a failed request changes nothing |
| `RepoConfig.RepoConfigPage.SelectConnection` | public/pages/repo-config.tsx:157 | the chosen connection |
| `RepoConfig.RepoConfigPage.LoadOwners` | public/pages/repo-config.tsx:59-74 | with a connection, the owners, and the first becomes the owner |
| `RepoConfig.RepoConfigPage.LoadTeams` | public/pages/repo-config.tsx:77-86 | teams load only for an organisation owner with a connection |
| `RepoConfig.RepoConfigPage.ChangeOwner` | public/pages/repo-config.tsx:178-183 | the owner, its type from the first matching owner (none without a match), and no selected team |
| `RepoConfig.RepoConfigPage.EditAppName` | public/pages/repo-config.tsx:89-91 | the app name; the repository name follows the suggestion while it is in use |
| `RepoConfig.RepoConfigPage.EditRepoName` | public/pages/repo-config.tsx:218 | typing the name stops using the suggestion |
| `RepoConfig.RepoConfigPage.SetUseSuggestion` | public/pages/repo-config.tsx:212 | ticking the box brings the suggestion back |
| `RepoConfig.RepoConfigPage.CheckAvailability` | public/pages/repo-config.tsx:94-112 | unknown unless owner, name and connection are set; otherwise the server's answer |
| `RepoConfig.RepoConfigPage.SetTeamQuery` | public/pages/repo-config.tsx:238 | the search text |
| `RepoConfig.RepoConfigPage.AddTeam` | public/pages/repo-config.tsx:121-124 | `addTeam`, keeping slugs unique |
| `RepoConfig.RepoConfigPage.RemoveTeam` | public/pages/repo-config.tsx:125-127 | `removeTeam`, keeping slugs unique |
| `RepoConfig.RepoConfigPage.UpdatePermission` | public/pages/repo-config.tsx:128-130 | `updatePermission`, keeping slugs unique |
| `HelmConfig.NumberKeysAreNotBoolean` | public/pages/helm-config.tsx:312-313 | no number key matches the boolean pattern |
| `HelmConfig.GuessType` | public/pages/helm-config.tsx:311-315 | boolean exactly for `ENABLED`, `DEBUG`, `TLS` and `USE_…`; number exactly for the six numeric names; string otherwise |
| `HelmConfig.GuessRequired` | public/pages/helm-config.tsx:317-319 | required exactly for `APP_NAME`, `IMAGE` and `NAMESPACE` |
| `HelmConfig.NormalizeDef` | public/pages/helm-config.tsx:297-309 | the key upper-cased, files defaulted to none, a non-empty supplied type and any supplied `required` (`false` too) win over the guesses |
| `HelmConfig.NormalizeAsRaw` | public/pages/helm-config.tsx:297-309 | normalizing a fully given definition returns it exactly when its key has no lower-case letter and its type is not empty |
| `HelmConfig.NormalizeIdempotent` | public/pages/helm-config.tsx:297-309 | normalizing twice is normalizing once |
| `HelmConfig.SuggestionFor` | public/pages/helm-config.tsx:326-330 | a suggestion exists exactly for the four well-known keys |
| `HelmConfig.SuggestionStep` | public/pages/helm-config.tsx:325-331 | one more definition adds the suggestion for its upper-cased key, if any |
| `HelmConfig.BuildSuggestions` | public/pages/helm-config.tsx:321-333 | the keys are exactly the well-known keys some definition names, each with its suggestion |
| `HelmConfig.ImageSuggestionExample` | public/pages/helm-config.tsx:328 | owner `acme` and app `Widgets` suggest `ghcr.io/acme/widgets:latest` |
| `HelmConfig.ImageSuggestionShape` | public/pages/helm-config.tsx:328 | the image is "" unless both owner and app are set, and then names both, the app lower-cased |
| `HelmConfig.SuggestPlaceholder` | public/pages/helm-config.tsx:341-348 | a placeholder is non-empty exactly for the four well-known keys |
| `HelmConfig.PlaceholderAgreesWithSuggestion` | public/pages/helm-config.tsx:341-348 | with an app name, the placeholders of `APP_NAME`, `NAMESPACE` and `REPLICAS` are the suggested values |
| `HelmConfig.FieldPlaceholder` | public/pages/helm-config.tsx:190 | the definition's own non-empty placeholder, else its non-empty example, else the suggested placeholder; blank only when none is suggested |
| `HelmConfig.SplitOnNewline` | public/pages/helm-config.tsx:352 | splitting always gives at least one piece |
| `HelmConfig.SplitOnNewlineJoin` | public/pages/helm-config.tsx:352 | no piece holds a newline, and joining the pieces with newlines gives the text back |
| `HelmConfig.Lines` | public/pages/helm-config.tsx:352 | `split(/\r?\n/)` gives as many lines as splitting on newlines |
| `HelmConfig.TakeIdent` | public/pages/helm-config.tsx:355 | the identifier taken is no longer than the line |
| `HelmConfig.TakeIdentShape` | public/pages/helm-config.tsx:355 | it is the longest prefix of identifier characters |
| `HelmConfig.TakeIdentBefore` | public/pages/helm-config.tsx:355 | an identifier followed by `=` is taken whole |
| `HelmConfig.StripQuotes` | public/pages/helm-config.tsx:359-361 | unquoting never lengthens the value |
| `HelmConfig.StripQuotesOfQuoted` | public/pages/helm-config.tsx:359-361 | one pair of matching quotes around any text is removed, and only one; a lone quote becomes "" |
| `HelmConfig.StripQuotesUnquoted` | public/pages/helm-config.tsx:359-361 | a value without matching surrounding quotes is kept |
| `HelmConfig.ParseEnvLine` | public/pages/helm-config.tsx:353-361 | blank and `#` lines give nothing; a key read is an identifier |
| `HelmConfig.ParseEnvLineSound` | public/pages/helm-config.tsx:355-358 | what a line gives is `key=value` in the trimmed line, the value unquoted |
| `HelmConfig.ParseEnvLineComplete` | public/pages/helm-config.tsx:355-358 | every trimmed line of the form `identifier=value` is read, with the value after the first `=` |
| `HelmConfig.CollectKeys` | public/pages/helm-config.tsx:362 | the record holds exactly the keys of the entries, except `__proto__` |
| `HelmConfig.CollectLastWins` | public/pages/helm-config.tsx:362 | a key's value is that of its last entry |
| `HelmConfig.EnvOfLookup` | public/pages/helm-config.tsx:350-365 | a key is in the record exactly when some line gives it, and its value is that of the last such line |
| `HelmConfig.ParseEnv` | public/pages/helm-config.tsx:350-365 | the record built from the lines |
| `HelmConfig.ParseEnvLineCarriageReturn` | public/pages/helm-config.tsx:352-353 | a `\r` at the end of a line changes nothing |
| `HelmConfig.CrLfAlike` | public/pages/helm-config.tsx:352-353 | CRLF and LF texts import the same record |
| `HelmConfig.Merge` | public/pages/helm-config.tsx:93 | imported keys override, the other keys keep their values, nothing else appears |
| `HelmConfig.MissingRequired` | public/pages/helm-config.tsx:111 | at most one key per definition |
| `HelmConfig.MissingRequiredMeaning` | public/pages/helm-config.tsx:111-116 | saving is blocked exactly when a required value is missing or "", and a key is listed exactly when it is the key of such a definition |
| `HelmConfig.MissingRequiredInOrder` | public/pages/helm-config.tsx:111-113 | the keys listed are, in definition order, those of the one subsequence of the definitions that holds every missing definition as often as they do and nothing else |
| `HelmConfig.SuggestionsFillGuessedRequired` | public/pages/helm-config.tsx:47-55 | loaded definitions whose `required` is guessed never block with the suggested values once owner and app name are set |
| `HelmConfig.HelmConfigPage.constructor` | public/pages/helm-config.tsx:18-32 | the initial state |
| `HelmConfig.HelmConfigPage.Load` | public/pages/helm-config.tsx:35-62 | the context from the configuration, the normalized definitions and the suggested values; a request that throws shows its message (a non-OK configuration answer is an empty configuration, and the variables' body is read whatever its status) |
| `HelmConfig.HelmConfigPage.SetValue` | public/pages/helm-config.tsx:65-67 | the typed value, or its coercion for a number or boolean variable |
| `HelmConfig.HelmConfigPage.EditType` | public/pages/helm-config.tsx:171 | the chosen type on the definitions with the key |
| `HelmConfig.HelmConfigPage.EditDescription` | public/pages/helm-config.tsx:198 | the typed description on the definitions with the key |
| `HelmConfig.HelmConfigPage.ImportJson` | public/pages/helm-config.tsx:88-97 | a parsed object is merged over the values; otherwise nothing changes |
| `HelmConfig.HelmConfigPage.ImportEnv` | public/pages/helm-config.tsx:99-104 | a non-empty text is parsed and merged over the values; otherwise nothing changes |
| `HelmConfig.HelmConfigPage.HandleNext` | public/pages/helm-config.tsx:106-128 | proceeds exactly when nothing required is missing and the POST does not throw (its status is never read); otherwise the listed keys or the thrown request's message |

These conditions and definitions carry no contract of their own:

- `RepoConfig.RepoConfigPage.NextEnabled` is the "Next" condition (`public/pages/repo-config.tsx:316`).
- `Connections.ConnectionCenter.TestEnabled` and `SaveEnabled` are the enabled states of "Test" and "Save" (`public/pages/connect.tsx:205`, `public/pages/connect.tsx:212`).
- `Connections.LastChange` is the `updatedAt || createdAt` fallback (`public/pages/connect.tsx:335`).
- `HelmConfig.IsAssignment` is the regular expression at `public/pages/helm-config.tsx:355`.
- `HelmConfig.NormalizeAll` is the `map(normalizeDef)` of the loaded variables (`public/pages/helm-config.tsx:47`).
- `HelmConfig.ParseAll` is what each `.env` line yields (`public/pages/helm-config.tsx:352-361`); `EnvOfLookup` states its meaning.
- `HelmConfig.EnvValues` is the `.env` record as string values (`public/pages/helm-config.tsx:103`).
- `HelmConfig.MissingMessage` is the error text for the blocking keys (`public/pages/helm-config.tsx:113`).

The page operations themselves are these definitions; the lemmas and methods in the table
state what they do:

- `Connections.MarkDefault` is the optimistic step of `setDefault` (`public/pages/connect.tsx:105`).
- `Connections.WithoutId` is the optimistic step of `revoke` (`public/pages/connect.tsx:120`).
- `Connections.WithUpdatedAt` is the list update after a successful rotation (`public/pages/connect.tsx:140-144`).
- `RepoConfig.Sanitize` is the character filter of the name suggestion (`public/pages/repo-config.tsx:385`).
- `RepoConfig.TeamMatches` is the team search test (`public/pages/repo-config.tsx:117`).
- `RepoConfig.HasSlug` is the `some` test of `addTeam` (`public/pages/repo-config.tsx:122`).
- `RepoConfig.WithTeam` is `addTeam` (`public/pages/repo-config.tsx:121-124`).
- `RepoConfig.WithoutTeam` is `removeTeam` (`public/pages/repo-config.tsx:125-127`).
- `RepoConfig.WithPermission` is `updatePermission` (`public/pages/repo-config.tsx:128-130`).
- `HelmConfig.Collect` and `HelmConfig.EnvOf` are the record `parseEnv` writes, first line to last (`public/pages/helm-config.tsx:362`).
- `HelmConfig.IsMissing` is the test of a blocking definition (`public/pages/helm-config.tsx:111`).
- `HelmConfig.ImageRef` is the image template literal (`public/pages/helm-config.tsx:328`).
- `JsText.ReplaceSpaceRuns` is `replace(/\s+/g, rep)` (`public/pages/repo-config.tsx:384`).
- `JsText.Includes` is `includes` (`public/pages/repo-config.tsx:117`).
- `JsText.Join` is `join` (`public/pages/helm-config.tsx:113`).
- `JsText.StartsWith` and `JsText.EndsWith` are `startsWith` and `endsWith` (`public/pages/helm-config.tsx:354`, `public/pages/helm-config.tsx:359`).
- `JsArray.Any` is `some` (`public/pages/repo-config.tsx:122`).

## Left out

- Requests: `fetch`, the HTTP endpoints, JSON decoding, `window.location.hash` and `encodeURIComponent` are not modelled. Each request is its outcome, passed in.
- Repo page `handleNext`: its POST is not modelled, only the condition that enables it.
- Timing: the 450 ms debounce of the availability check and its cleanup are not modelled. So are the order in which React applies effects and state updates, and stale closures. Each effect is a method that reads the current state.
- `checking`, `previewing` and `preview`: these flags and the preview panel (`handlePreview`) only drive the display.
- `Connections.FormatAgo`: it takes the elapsed milliseconds as a parameter. `new Date(iso)`, `Date.now()` and the NaN of an unparsable date are not modelled.
- `HelmConfig.HelmConfigPage.SetValue`: the result of `Number`/`Boolean` (`castType`) is a parameter. Its floating-point and truthiness rules are not modelled.
- `HelmConfig.Value`: numbers are integers; fractional JSON numbers are not represented. Arrays and objects are one opaque value.
- `HelmConfig.HelmConfigPage.ImportJson`: `prompt`, `JSON.parse` and `alert` are foreign calls. Their outcome is a parameter: dismissed, malformed, or the object's own entries. Spreading a JSON array or string (which spreads its indices) is not modelled.
- `HelmConfig.HelmConfigPage.ImportEnv`: the prompt's text is a parameter, with `None` for a dismissed prompt.
- `HelmConfig.NormalizeDef`: a non-string key (`String(v.key)` of a number) is not modelled. Keys are strings or missing.
- Case and length: case mapping covers ASCII letters only. Lengths count characters, not UTF-16 code units, which matters for `slice(-4)` of a non-BMP prefix. Whitespace for `trim` and `\s` is the full ECMAScript set.
- JSX and presentation: all rendering is not modelled, including `Availability`, `EmptyState`, `Th`, `Td`, `GithubMark`, the summary panel, the `helm repo add` hint and the components `header.tsx`, `label.tsx` and `row-label.tsx`.
- `public/index.tsx`: it only mounts the pages.
