# SteamGuessr core, modelled in Dafny

SteamGuessr is a guessing game. A page shows Steam reviews of a game with the
game's name blurred out, and the player guesses the title. This project models
the parts of the game that decide something:

- The React page (`HomePage.jsx`):
  - the title normalizer and the guess check built on it;
  - the redaction of the title inside review text;
  - the component's state and its handlers. This includes the reset that runs
    when a new AppID is set, and the AppID input parsed with `parseInt`.
- The earlier plain-DOM page (`main.js`):
  - its stricter guess check (trim and lower-case only);
  - its always-hidden redaction;
  - its reviews rendering;
  - the element updates of its handlers.
- The proxy server (`server.js`):
  - the AppID check;
  - the app-details found / not-found rule;
  - the top-500 ranking. SteamSpy's owners ranges are parsed to their lower
    bound, stably sorted from most to fewest owners, cut to 500, and mapped to
    AppIDs.

Modules:

| module | file | models |
|---|---|---|
| `Wrappers` | `wrappers.dfy` | `Option` |
| `Text` | `text.dfy` | JavaScript's whitespace set, `trim`, `trimStart`; an ASCII `toLowerCase`; `String(x)` of a possibly undefined string |
| `JsParse` | `jsparse.dfy` | `parseInt(s, 10)` (`None` is `NaN`) and its inverse `String(n)` |
| `TitleNormalizer` | `normalize.dfy` | `normalizeTitle` and the guess match |
| `Redaction` | `redaction.dfy` | escaping, the global case-insensitive replace, and its specification |
| `StableSorting` | `sorting.dfy` | `Array.prototype.sort` with a descending comparator |
| `OwnersRanking` | `ranking.dfy` | the `/api/top500appids` route |
| `ServerRoutes` | `server.dfy` | `/api/check-appid` and `/api/appdetails` |
| `HomePage` | `homepage.dfy` | class `GameState`: the React component's state and handlers |
| `LegacyPage` | `legacy.dfy` | the plain-DOM page; class `Page` holds the elements its handlers write |

How each part is modelled:

- **StableSorting.** The reference for the sort is a functional stable
  insertion sort, `SortDesc`. An in-place insertion sort on an `array`,
  `SortInPlace`, is proved to compute it. `SortDesc` is proved:
  - sorted;
  - a permutation of its input;
  - stable, that is, for every key the elements with that key keep their input
    order;
  - the only result that is sorted and stable.
- **Redaction.** The output of the replace is a list of tagged segments:
  plain, hidden or bold. A predicate `Tiles` states what a correct
  segmentation is:
  - a marked segment is a case-insensitive occurrence of the title;
  - a plain segment is a non-empty run in which no occurrence starts, running
    up to the next occurrence or the end.

  The scan is proved to produce such a segmentation. Any two segmentations
  that meet `Tiles` are equal, so the scan's output is the only correct one.
- **HomePage.** `GameState` keeps one invariant:
  - the title is unblurred exactly after a correct guess.

  Each handler states its whole new state.

## Model

| member | source | states |
|---|---|---|
| Text.Trim | steamguessr-app/src/main.js:195 | the trimmed string is empty or neither starts nor ends with whitespace |
| Text.TrimSlice | steamguessr-app/src/main.js:195 | `trim` cuts only whitespace, from both ends: the result is a slice with only whitespace outside it |
| Text.TrimPadding | steamguessr-app/src/main.js:195 | whitespace added on either side does not change the trimmed string |
| Text.TrimLower | steamguessr-app/src/main.js:195-196 | trimming and lower-casing commute |
| Text.ToLower | steamguessr-app/src/main.js:196 | `toLowerCase` keeps the length and lower-cases each character in place (ASCII letters only) |
| Text.LowerTwice | steamguessr-app/src/main.js:196 | lower-casing is idempotent |
| Text.JsString | steamguessr-app/server.js:29 | `String(x)` of a string that may be undefined: the string itself, or `undefined` |
| JsParse.ParseDigits | steamguessr-app/src/HomePage.jsx:114 | digits followed by a non-digit parse to their decimal value |
| JsParse.ParseAllDigits | steamguessr-app/server.js:64 | a non-empty digit string parses to its decimal value |
| JsParse.ParseFormat | steamguessr-app/src/HomePage.jsx:114 | round trip: `parseInt(String(n), 10) == n` for every integer |
| JsParse.ParseNegative | steamguessr-app/src/HomePage.jsx:114 | a minus sign before the digits of m > 0 parses to -m |
| JsParse.DigitsValue | steamguessr-app/src/HomePage.jsx:114 | the decimal digits of n have value n |
| JsParse.ParseInt | steamguessr-app/src/HomePage.jsx:114 | `parseInt(s, 10)`: a string without any digit gives `NaN`, and a negative result needs a leading minus after the whitespace |
| TitleNormalizer.StripMarks | steamguessr-app/src/HomePage.jsx:90 | no mark is left and the string never grows |
| TitleNormalizer.StripClean | steamguessr-app/src/HomePage.jsx:90 | a string without marks is left alone |
| TitleNormalizer.CollapseWhitespace | steamguessr-app/src/HomePage.jsx:91 | `replace(/\s+/g, " ")` never lengthens the string, is empty only for the empty string, and starts with a space exactly where the input starts with whitespace |
| TitleNormalizer.CollapseShape | steamguessr-app/src/HomePage.jsx:91 | after collapsing, whitespace occurs only as single spaces; a mark-free string stays mark-free |
| TitleNormalizer.CollapseSingleSpaced | steamguessr-app/src/HomePage.jsx:91 | collapsing leaves single-spaced text alone |
| TitleNormalizer.NormalizeTitle | steamguessr-app/src/HomePage.jsx:86-87 | a missing or empty title normalizes to `""` |
| TitleNormalizer.NormalizedShape | steamguessr-app/src/HomePage.jsx:86-94 | every result has no marks, single spaces only, no upper-case letter, and no whitespace at either end |
| TitleNormalizer.TitlesMatch | steamguessr-app/src/HomePage.jsx:100-102 | the guess is correct when guess and title have the same normal form; every title matches itself |
| TitleNormalizer.NormalizeFixpoints | steamguessr-app/src/HomePage.jsx:86-94 | a string is its own normal form if and only if it has that shape |
| TitleNormalizer.NormalizeIdempotent | steamguessr-app/src/HomePage.jsx:86-94 | normalizing twice is normalizing once |
| TitleNormalizer.NormalFormMatches | steamguessr-app/src/HomePage.jsx:97-103 | guessing a title's normal form always matches the title |
| TitleNormalizer.EmptyGuessMatches | steamguessr-app/src/HomePage.jsx:97-103 | an empty guess matches exactly the titles that normalize to nothing |
| TitleNormalizer.NormalizeClean | steamguessr-app/src/HomePage.jsx:86-94 | a clean (mark-free, single-spaced, trimmed) title normalizes to its lower-case form |
| TitleNormalizer.CleanLengthsDiffer | steamguessr-app/src/HomePage.jsx:97-103 | clean titles of different lengths never match |
| TitleNormalizer.MarkAndCaseIgnored | steamguessr-app/src/HomePage.jsx:90-102 | for every guess and title: changing the letter case of the guess and inserting a mark anywhere in the title never change the verdict |
| TitleNormalizer.MarkInsertIgnored | steamguessr-app/src/HomePage.jsx:90 | a mark inserted at any position of a title leaves its normal form unchanged |
| TitleNormalizer.MarkAppendIgnored | steamguessr-app/src/HomePage.jsx:90 | a trailing mark, such as a trademark sign, leaves the normal form unchanged |
| TitleNormalizer.StripInsertMark | steamguessr-app/src/HomePage.jsx:90 | deleting marks removes an inserted mark and keeps the text around it |
| TitleNormalizer.PortalMatchesTrademarked | steamguessr-app/src/HomePage.jsx:97-103 | the guess `PORTAL` matches the title `Portal™` |
| TitleNormalizer.PortalTwoDiffers | steamguessr-app/src/HomePage.jsx:97-108 | the guess `portal 2` does not match the title `Portal` |
| TitleNormalizer.StripLower | steamguessr-app/src/HomePage.jsx:90-94 | deleting marks and lower-casing commute |
| TitleNormalizer.CollapseLower | steamguessr-app/src/HomePage.jsx:91-94 | collapsing whitespace and lower-casing commute |
| TitleNormalizer.NormalizeLower | steamguessr-app/src/HomePage.jsx:86-94 | letter case of the input never changes the normal form |
| TitleNormalizer.NormalizeTrim | steamguessr-app/src/HomePage.jsx:86-94 | surrounding whitespace never changes the normal form |
| TitleNormalizer.CollapseLeading | steamguessr-app/src/HomePage.jsx:91-92 | leading whitespace disappears once collapsed and trimmed |
| TitleNormalizer.CollapseTrailing | steamguessr-app/src/HomePage.jsx:91-92 | trailing whitespace disappears once collapsed and trimmed |
| Redaction.EscapeRegExp | steamguessr-app/src/HomePage.jsx:124 | the escaped title is never shorter, and it equals the title exactly when the title has no metacharacter |
| Redaction.EscapedPatternIsLiteral | steamguessr-app/src/HomePage.jsx:122-125 | the escaped title is a pattern that stands for exactly the title |
| Redaction.Scan | steamguessr-app/src/HomePage.jsx:126-131 | the left-to-right global replace yields a correct segmentation of the text |
| Redaction.Redact | steamguessr-app/src/HomePage.jsx:121-132 | joining the segments gives back the text; an empty title gives one plain segment; otherwise the segmentation is correct |
| Redaction.TilesConcat | steamguessr-app/src/HomePage.jsx:126-131 | a correct segmentation joins to the text behind its offset |
| Redaction.TilesMarks | steamguessr-app/src/HomePage.jsx:126-131 | every marked segment is the title up to case, and is hidden exactly when blurred |
| Redaction.TilesUnique | steamguessr-app/src/HomePage.jsx:126-131 | two correct segmentations of the same text are equal |
| Redaction.RedactCharacterized | steamguessr-app/src/HomePage.jsx:121-132 | every correct segmentation is the one the page produces |
| Redaction.RedactMarks | steamguessr-app/src/HomePage.jsx:128-131 | each marked span is the title up to case; hidden while blurred, bold once revealed |
| Redaction.PortalSentence | steamguessr-app/src/HomePage.jsx:121-132 | `I love Portal so much` with title `Portal` gives a plain, a marked and a plain segment |
| StableSorting.InsertPerm | steamguessr-app/server.js:63-67 | inserting adds the new element and removes none |
| StableSorting.SortDesc | steamguessr-app/server.js:63-67 | the reference sort: each element in turn is inserted behind the ones whose key is at least its own (its properties are stated by SortDescCorrect) |
| StableSorting.InsertSorted | steamguessr-app/server.js:63-67 | inserting into a descending sequence keeps it descending |
| StableSorting.InsertWithKey | steamguessr-app/server.js:63-67 | inserting appends the element behind the others of its key and leaves the other keys alone |
| StableSorting.SortDescCorrect | steamguessr-app/server.js:63-67 | the reference sort is descending, a permutation, and stable for every key |
| StableSorting.SortedStableUnique | steamguessr-app/server.js:63-67 | two descending sequences with the same elements of every key, in the same order, are equal |
| StableSorting.InsertAt | steamguessr-app/server.js:63-67 | inserting lands behind every element with at least the new key |
| StableSorting.InsertLast | steamguessr-app/server.js:63-67 | the array step moves the element left past smaller keys and returns where it lands; the rest of the array is unchanged |
| StableSorting.SortInPlace | steamguessr-app/server.js:63-67 | the in-place sort computes the reference sort: sorted, a permutation, stable |
| OwnersRanking.BeforeSeparator | steamguessr-app/server.js:64 | the text before the first ` .. `, or all of it when there is none |
| OwnersRanking.RemoveCommas | steamguessr-app/server.js:64 | a character remains exactly when it is in the input and is not a comma |
| OwnersRanking.RemoveCommasClean | steamguessr-app/server.js:64 | a string without commas is left as it is |
| OwnersRanking.RemoveCommasAppend | steamguessr-app/server.js:64 | removing commas distributes over concatenation, so the remaining characters keep their order and number |
| OwnersRanking.OwnersLowerBound | steamguessr-app/server.js:64 | the lower bound of an owners range; a range without any digit gives `NaN` |
| OwnersRanking.BeforeSeparatorOf | steamguessr-app/server.js:64 | a space-free low part is split off whole |
| OwnersRanking.ParseWithoutCommas | steamguessr-app/server.js:64 | thousands-separated digits parse to their value once the commas are removed |
| OwnersRanking.ThousandsLowerBound | steamguessr-app/server.js:64 | an owners range `low .. high` has the value of `low` as its lower bound |
| OwnersRanking.ThousandExample | steamguessr-app/server.js:64 | `1,000 .. 2,000` has lower bound 1000 |
| OwnersRanking.SortedPermutes | steamguessr-app/server.js:63-67 | the sorted games are a permutation of SteamSpy's list, from most to fewest owners |
| OwnersRanking.Sorted | steamguessr-app/server.js:63-67 | the `sort` call, keyed by the owners lower bound; SortedPermutes and RankedStable state that it is descending, a permutation and stable |
| OwnersRanking.AppIds | steamguessr-app/server.js:68 | `map((game) => game.appid)`: one AppID per game, in order, the i-th being the i-th game's |
| OwnersRanking.Ranked | steamguessr-app/server.js:68 | `slice(0, 500)` keeps 500 games, or all of them when there are fewer, and each one is from the input |
| OwnersRanking.RankedAppIds | steamguessr-app/server.js:68 | the answer holds 500 AppIDs, or all when there are fewer games: the AppID of each kept game, in rank order |
| OwnersRanking.RankedSplit | steamguessr-app/server.js:68 | the kept games and the dropped ones together are exactly the sorted list |
| OwnersRanking.DroppedNotAbove | steamguessr-app/server.js:63-68 | no dropped game has a larger lower bound than a kept one |
| OwnersRanking.RankedSorted | steamguessr-app/server.js:63-68 | the kept games run from most to fewest owners |
| OwnersRanking.RankedStable | steamguessr-app/server.js:63-68 | for each lower bound, the kept games of that bound are the first ones of that bound in the input, in input order |
| OwnersRanking.SortedAppIds | steamguessr-app/server.js:63-68 | sorting neither adds nor repeats an AppID |
| OwnersRanking.RankedAppIdsAtMostOnce | steamguessr-app/server.js:68 | each AppID appears in the answer at most as often as in SteamSpy's list |
| OwnersRanking.DistinctCounts | steamguessr-app/server.js:68 | a list is duplicate-free if and only if every value occurs at most once |
| OwnersRanking.RankedDistinct | steamguessr-app/server.js:68 | with distinct AppIDs in the input, the answer never names a game twice |
| OwnersRanking.TopAppIds | steamguessr-app/server.js:63-69 | sorts SteamSpy's values in place and answers the AppIDs of the top 500 |
| ServerRoutes.CheckAppId | steamguessr-app/server.js:25-31 | a single guess is correct exactly when it equals the AppID; a missing one only for the AppID `undefined` |
| ServerRoutes.QueryString | steamguessr-app/server.js:27-29 | `String(guess)`: a single value is itself; a repeated one has a comma in it |
| ServerRoutes.JoinHasComma | steamguessr-app/server.js:29 | two or more joined values contain a comma |
| ServerRoutes.RepeatedGuessNeverMatches | steamguessr-app/server.js:27-30 | a repeated `guess` parameter never matches an AppID without a comma |
| ServerRoutes.AppDetails | steamguessr-app/server.js:34-51 | found exactly when the entry exists and has `success` and `data`; then its name and header image are answered |
| HomePage.TitleFromReply | steamguessr-app/src/HomePage.jsx:37 | a non-empty title comes only from a found reply, and is its name |
| HomePage.ImageFromReply | steamguessr-app/src/HomePage.jsx:38 | a non-empty image comes only from a found reply, and is its header image |
| HomePage.NotFoundLeavesNoTitle | steamguessr-app/server.js:41-50 | an AppID Steam does not find leaves the page without title and image |
| HomePage.GameState.constructor | steamguessr-app/src/HomePage.jsx:7-15 | the initial state: no AppID, everything empty, blurred, not loading |
| HomePage.GameState.BlurTitleInText | steamguessr-app/src/HomePage.jsx:121-132 | the review text comes back whole; without a title it is one plain segment; otherwise every case-insensitive occurrence of the title is marked, and the segmentation is the only correct one; hidden while blurred, bold when revealed |
| HomePage.GameState.EditGuess | steamguessr-app/src/HomePage.jsx:390 | only the guess field changes |
| HomePage.GameState.SubmitGuess | steamguessr-app/src/HomePage.jsx:97-109 | without a title nothing changes; otherwise the verdict is correct and the title revealed exactly when the guess matches |
| HomePage.GameState.ResetForNewAppId | steamguessr-app/src/HomePage.jsx:21-31 | a new AppID blurs again and clears the title, image, reviews, guess and verdict; loading starts |
| HomePage.GameState.ChangeAppId | steamguessr-app/src/HomePage.jsx:112-118 | non-numeric input changes nothing; a number becomes the AppID, and a new one resets the game |
| HomePage.GameState.DetailsLoaded | steamguessr-app/src/HomePage.jsx:35-38 | the title and image become those of the reply, or empty |
| HomePage.GameState.DetailsFailed | steamguessr-app/src/HomePage.jsx:40-42 | only the error message changes |
| HomePage.GameState.ReviewsLoaded | steamguessr-app/src/HomePage.jsx:46-49 | the reviews become the reply's list, or none; loading ends |
| HomePage.GameState.ReviewsFailed | steamguessr-app/src/HomePage.jsx:51-55 | the error message is set and loading ends |
| LegacyPage.MissingNameMatchesBlankOnly | steamguessr-app/src/main.js:201-203 | without a name, only a guess that trims to nothing is correct |
| LegacyPage.GuessCorrect | steamguessr-app/src/main.js:193-203 | trimmed, lower-cased guess against the trimmed, lower-cased name; a guess that trims to the trimmed name is correct |
| LegacyPage.IncorrectMessage | steamguessr-app/src/main.js:210 | the wrong-guess text holds `String(data.name)` between its fixed prefix and the closing parenthesis |
| LegacyPage.GuessIgnoresPadding | steamguessr-app/src/main.js:193-196 | whitespace around the guess never changes the verdict |
| LegacyPage.GuessIgnoresCase | steamguessr-app/src/main.js:193-196 | letter case of the guess never changes the verdict |
| LegacyPage.LegacyAcceptedIsMatched | steamguessr-app/src/main.js:193-203 | every guess this page accepts is accepted by the React page too |
| LegacyPage.TrademarkOnlyMatchedByReactPage | steamguessr-app/src/main.js:201-203 | `PORTAL` against `Portal™` is rejected here and accepted by the React page |
| LegacyPage.RedactAlwaysHidden | steamguessr-app/src/main.js:139-151 | the text comes back whole; an empty trimmed name leaves it alone; otherwise every case-insensitive occurrence of the trimmed name is hidden, none is bold, and the segmentation is the only correct one |
| LegacyPage.RenderReviews | steamguessr-app/src/main.js:133-179 | without a reviews list the message; otherwise one redacted card per review, in order |
| LegacyPage.Page.constructor | steamguessr-app/src/main.js:52-60 | the page starts with no title text, no header image, and an empty result |
| LegacyPage.Page.ShowGameTitle | steamguessr-app/src/main.js:93-112 | shows `Game: name` or the not-found text; a header image comes blurred |
| LegacyPage.Page.CheckGuess | steamguessr-app/src/main.js:200-212 | a correct guess says so in green and unblurs the image; a wrong one shows the actual name in red |
| LegacyPage.Page.CheckFailed | steamguessr-app/src/main.js:214-217 | only the result text changes, to the error message |

## Left out

- Network and HTTP are not modelled: `fetch`, Express routing, CORS, status codes beyond the found / not-found choice, and JSON parsing. Each response is a parameter of the handler that receives it. The reviews route forwards Steam's answer as is, so it has no model.
- The `isCurrent` guard against stale responses is not modelled. A response handler is taken to run for the current AppID.
- The mount effect that fetches the top-500 list and picks a random AppID is not modelled: randomness and a network call.
- Presentation is not modelled: markup, styles, the back-to-top button and the review cards. `renderReviews` is never called by the page. The verdict is the datatype `Verdict`; `VerdictText` gives the text the page shows for it.
- `renderLabeledReviews` shows the first three reviews under fixed labels (funniest, most upvoted positive, most upvoted negative). No code picks them by funniness or votes: the reviews route forwards Steam's answer unchanged. This rendering is not modelled.
- `toLowerCase` is modelled for ASCII letters only. Full Unicode case mapping is left out, and so is the case-insensitive matching of non-ASCII letters in the regular expressions.
- OwnersRanking.TopAppIds: requires every owners range to parse. An unparsable range gives `NaN`, and a comparator returning `NaN` leaves the engine's sort order unspecified. The pure ranking lemmas (`SortedPermutes`, `RankedSorted`, `DroppedNotAbove`, `RankedStable`, `SortedAppIds`) do not require this, because `LowerBound` reads `NaN` as 0. They describe the source only for well-formed input.
- JsParse.ParseInt: numbers are exact integers. The double precision of JavaScript numbers (above 2^53) is not modelled.
- ServerRoutes.CheckAppId: the `guess` query value is absent, a single string, or a repeated list. Nested query objects are not modelled.
- `Object.values(data)` is taken to list SteamSpy's games in the order given. The engine's key order (integer-like keys ascending) is not modelled.
- The `required` attribute of the guess input is not modelled. An empty guess is handled like any other.
- LegacyPage.RedactAlwaysHidden: the name is a parameter. The plain-DOM page reads `data.name` from the reviews response, and what that response holds is not part of this model.
- Strings are sequences of Unicode scalar values, not UTF-16 code units. A lone surrogate in a title or review cannot be represented, and lengths count code points.
- HomePage.GameState.ChangeAppId: the AppID field is `type="number" min="1"`, so the browser refuses to submit `0`, `-5` or `1.5`. The model accepts any input that `parseInt` reads.
- HomePage.GameState.ChangeAppId: React compares state with `Object.is`, so `-0` after `0` counts as a new value. The model has no negative zero and treats them as equal.
- LegacyPage.RenderReviews: when the reviews request fails, the plain-DOM page shows `Error fetching reviews.`. That failure path has no counterpart in the model.
- The back-to-top scroll handlers and `App.jsx`'s routing are not modelled (presentation).
