# Beex Sports: a Dafny model of the client's state and rules

Beex Sports is a React Native client for booking five-a-side football. It lists sports complexes, keeps favorites, recommends matches by skill level and lets a player create a match. Every backend call is a stub over fixture data. This project models the deterministic core of the app as pure Dafny functions over immutable records:

- **Session store** (`Session`, from `AuthContext`). The active user and the user in the storage slot `@BeexSports:user`. It covers hydration, `updateUser`, `signIn`, `signUp`, `signOut` and the profile-completion score.
- **Favorites store** (`Favorites`, from `FavoritesContext`). The favorite list and its persisted copy, with `addFavorite`, `removeFavorite` and `isFavorite`.
- **Catalog services** (`ComplexService`, `MatchService`). These hold the fixture complexes and matches, the case-insensitive search, lookup by id, the level filter and the `joinMatch` / `createMatch` stubs.
  - Each service takes its backing list as a parameter.
  - The stubs return the list unchanged, so "nothing changes" can be stated.
  - `ComplexFixtures` and `MatchFixtures` evaluate the services on the fixtures.
- **Screen rules**:
  - `CreateMatchForm`: date and time formatting, form validation and the record sent to `createMatch`.
  - `AuthForms`: the sign-up and sign-in input checks.
  - `Matchmaking`: the recommendation rule and the join gate.
  - `ComplexesView`: the blank-query shortcut, the search effect and the favorite toggle.
- **Support modules**:
  - `Text`: the JavaScript string operations the app uses. These are `trim` with the full ECMAScript white-space set, `toLowerCase` on ASCII letters, `includes`, `split(sep)[0]`, `String(n)` and `padStart`.
  - `Seqs`: `filter`, `find` and "is a subsequence of".
  - `Wrappers`: `Option`.
  - `Levels`: the three skill levels.

Two things the code does that the model keeps and states:

- **`signIn` hard-codes a score of 50.** A user it makes up gets 50 instead of a computed score. `Session.SignInScoreConsistentIff` shows that the stored 50 agrees with `calculateProfileCompletion` exactly when the text before the first `@` is not empty. An email such as `@x.com` gets 50 while its fields are worth 25.
- **Repeated favorites.** `addFavorite` does not check for an existing id, so adding twice gives two entries (`Favorites.AddThenRemove`). Going through the screen's toggle never repeats an id (`ComplexesView.ToggleKeepsDistinct`).

## Model

| member | source | states |
|---|---|---|
| Session.RoundHalfUp | app/context/AuthContext.tsx:49 | `Math.round` gives the integer within half a unit of x, with halves rounded up |
| Session.RoundQuarters | app/context/AuthContext.tsx:49 | A count out of four rounds to exactly 25 times the count |
| Session.ProfileCompletion | app/context/AuthContext.tsx:44-50 | The rounded percentage of truthy keys among name, email, city and level is 25 times the number of those fields that are set and non-empty, so it is always 0, 25, 50, 75 or 100 |
| Session.Mount | app/context/AuthContext.tsx:26-27 | The provider starts with no user and loading set, and storage not yet read |
| Session.EmptyNameCountsMissing | app/context/AuthContext.tsx:47 | An empty name is falsy: filling it in adds exactly 25 to the score |
| Session.EmptyCityIsAbsent | app/context/AuthContext.tsx:47 | An empty city scores exactly like an absent one |
| Session.Merge | app/context/AuthContext.tsx:55-58 | The spread merge: every key present in the patch overrides, including a city or level present as `undefined`, and every absent key keeps its old value |
| Session.LoadStoredUser | app/context/AuthContext.tsx:29-42 | Hydration: a stored user becomes active, an empty slot leaves the active user unchanged, and loading ends either way |
| Session.HydratedIsSynced | app/context/AuthContext.tsx:26-42 | After mounting and reading storage, the active user equals the stored one |
| Session.UpdateUser | app/context/AuthContext.tsx:52-64 | With no active user nothing changes. Otherwise the result is the merged user with a recomputed score, shown and stored alike |
| Session.UpdateIgnoresPatchScore | app/context/AuthContext.tsx:60 | A `profileCompleted` in the patch has no effect: the score is always recomputed |
| Session.UpdateIdempotent | app/context/AuthContext.tsx:52-64 | Applying the same patch twice equals applying it once |
| Session.SignInUser | app/context/AuthContext.tsx:82-87 | The made-up user is named by the text before the first '@' (all of the email when there is none), has no city or level, and has a score of 50 |
| Session.SignIn | app/context/AuthContext.tsx:66-91 | A stored user with exactly that email is activated and storage is untouched. Otherwise a made-up user is activated and overwrites storage. Either way a user with that email ends up stored |
| Session.SignInIgnoresPassword | app/context/AuthContext.tsx:66-91 | The password has no influence on the outcome |
| Session.SignInTwice | app/context/AuthContext.tsx:71-79 | A second sign-in with the same email leaves the state the first one produced, whatever fresh id it is given |
| Session.SignInScoreConsistentIff | app/context/AuthContext.tsx:85-86 | The hard-coded 50 equals the computed score exactly when the name before '@' is not empty |
| Session.SignUpUser | app/context/AuthContext.tsx:95-102 | The signed-up user keeps the given name and email, has no city or level, and its score agrees with its fields |
| Session.SignUp | app/context/AuthContext.tsx:93-106 | Sign-up always activates the new user and overwrites storage with it |
| Session.SignUpScore | app/context/AuthContext.tsx:102 | The sign-up score counts only name and email |
| Session.SignOut | app/context/AuthContext.tsx:108-111 | Both the active user and storage are cleared |
| Session.AfterSignOut | app/context/AuthContext.tsx:53 | After sign-out `updateUser` changes nothing, and the next sign-in makes up a new user |
| Session.TransitionsKeepSynced | app/context/AuthContext.tsx:62-63 | Every transition keeps the shown user equal to the stored one |
| Session.ProfileSavePatch | app/screens/ProfileScreen.tsx:39-43 | The profile screen always sends name and city, possibly empty, and always sends level, even when it is undefined |
| Session.SaveWithoutLevelClearsIt | app/screens/ProfileScreen.tsx:39-43 | Saving with no level selected erases a level that was set, and the score counts only name, email and city |
| Favorites.LoadStored | app/context/FavoritesContext.tsx:25-36 | A stored list replaces the in-memory list, and an empty slot leaves it unchanged |
| Favorites.Mount | app/context/FavoritesContext.tsx:23 | The favorites provider starts with an empty list, and storage not yet read |
| Favorites.IsFavoriteIff | app/context/FavoritesContext.tsx:52-54 | `isFavorite(id)` holds exactly when some entry carries the id |
| Favorites.AddFavorite | app/context/FavoritesContext.tsx:38-43 | The old list plus the complex at the end, without a duplicate check. Afterwards the id is a favorite and storage equals the list |
| Favorites.RemoveFavorite | app/context/FavoritesContext.tsx:45-50 | Every entry with the id is gone and all others remain in their original order. Afterwards the id is not a favorite and storage equals the list |
| Favorites.RemoveAbsent | app/context/FavoritesContext.tsx:46 | Removing an id no entry carries leaves the list unchanged |
| Favorites.RemoveIdempotent | app/context/FavoritesContext.tsx:45-50 | Removing twice equals removing once |
| Favorites.RemoveCount | app/context/FavoritesContext.tsx:46 | Counted per entry: no copy with the id remains, and every other entry keeps all its copies |
| Favorites.AddThenRemove | app/context/FavoritesContext.tsx:38-50 | Adding then removing an id leaves no entry with it, and adding the same complex twice gives two entries |
| ComplexFixtures.MockComplexesShape | app/services/complexService.ts:4-53 | `getComplexes` returns the five fixtures in order, with ids '1' to '5', all distinct |
| ComplexService.GetComplexes | app/services/complexService.ts:49-53 | `getComplexes` returns the catalog unchanged, in order |
| ComplexService.NormalizeQuery | app/services/complexService.ts:60 | The normalised query is empty exactly when the query is blank, and lowering it again changes nothing |
| ComplexService.SearchComplexes | app/services/complexService.ts:56-67 | The result is exactly the catalog entries whose lowered name or city contains the normalised query, in catalog order |
| ComplexService.SearchCount | app/services/complexService.ts:62-66 | Every copy of a matching entry is kept and nothing else is |
| ComplexService.NormalizeIdempotent | app/services/complexService.ts:60 | Normalising a normalised query changes nothing |
| ComplexService.SearchIgnoresCaseAndPadding | app/services/complexService.ts:60-66 | Searching a query gives the same list as searching its normal form |
| ComplexService.SearchSameNormalForm | app/services/complexService.ts:60-66 | Two queries with the same normal form give the same result |
| ComplexService.SearchBlankIsAll | app/services/complexService.ts:60-66 | A query that is blank after trimming returns the whole catalog |
| ComplexService.GetComplexById | app/services/complexService.ts:70-75 | The result is the first entry with the id, or nothing exactly when no entry has it |
| ComplexService.LookupFindsEntry | app/services/complexService.ts:74 | With distinct ids, looking up any entry's id finds that entry |
| ComplexFixtures.SearchNorte | app/services/complexService.ts:4-45 | On the fixtures, "norte" finds only id '2' |
| ComplexFixtures.SearchBuenosAires | app/services/complexService.ts:4-45 | On the fixtures, "buenos aires" finds ids '1' and '4', in that order |
| ComplexFixtures.SearchNorteShouted | app/services/complexService.ts:60 | " NORTE " normalises to "norte" and gives the same single result |
| ComplexFixtures.LookupFixtures | app/services/complexService.ts:70-75 | On the fixtures, id "2" finds 'Club Deportivo Norte' and id "6" finds nothing |
| MatchService.WithIdRoundTrip | app/services/matchService.ts:148-151 | Dropping the id from the created record gives back the submitted fields unchanged |
| MatchService.GetMatches | app/services/matchService.ts:120-124 | `getMatches` returns the catalog unchanged, in order |
| MatchService.GetMatchesByLevel | app/services/matchService.ts:127-132 | The result is exactly the matches of that level, in catalog order |
| MatchService.ByLevelCount | app/services/matchService.ts:131 | Every copy of a match of that level is kept and nothing else is |
| MatchService.LevelsPartition | app/services/matchService.ts:131 | For any catalog, the three level lists together are as long as the catalog |
| MatchService.JoinMatch | app/services/matchService.ts:135-141 | `joinMatch` reports success for any id and changes nothing |
| MatchService.CreateMatch | app/services/matchService.ts:144-156 | The created match carries the fresh id plus the submitted fields unchanged, and the catalog is not extended |
| MatchFixtures.MockMatchesShape | app/services/matchService.ts:17-124 | `getMatches` returns the seven fixtures in order, with ids '1' to '7' |
| MatchFixtures.FixturesWellFormed | app/services/matchService.ts:17-116 | Every fixture has 0 ≤ current < required and needs at least two players |
| MatchFixtures.FixturesIntermedio | app/services/matchService.ts:17-116 | 'intermedio' selects ids 1, 4 and 6 |
| MatchFixtures.FixturesNovato | app/services/matchService.ts:17-116 | 'novato' selects ids 2 and 5 |
| MatchFixtures.FixturesAvanzado | app/services/matchService.ts:17-116 | 'avanzado' selects ids 3 and 7 |
| MatchFixtures.CreateLeavesFixtures | app/services/matchService.ts:144-156 | After `createMatch`, `getMatches` still returns the same seven records |
| Text.Trim | app/services/complexService.ts:60 | `trim` leaves no white space at either end, the result occurs in the input, and it is empty exactly when the input is blank |
| Text.TrimRemovesOnlySpace | app/services/complexService.ts:60 | `trim` removes only white space: the result is a contiguous slice of the input, and everything before and after it is white space |
| Text.TrimIdempotent | app/services/complexService.ts:60 | Trimming twice equals trimming once |
| Text.Lower | app/services/complexService.ts:60 | `toLowerCase` keeps the length, maps 'A'-'Z' to 'a'-'z' and leaves every other character as it is |
| Text.Includes | app/services/complexService.ts:64-65 | `includes` holds for every prefix, and never for a string longer than the one searched |
| Text.LowerIdempotent | app/services/complexService.ts:60 | Lowering twice equals lowering once, and lowering neither adds nor removes white space |
| Text.BeforeFirst | app/context/AuthContext.tsx:85 | `split('@')[0]` is a prefix without '@', followed in the email by '@' when it is shorter |
| Text.ParseNatToString | app/screens/CreateMatchScreen.tsx:70-78 | Reading back the digits `String(n)` writes gives `n` |
| Text.NatToString | app/screens/CreateMatchScreen.tsx:70-71 | `String(n)` writes at least one decimal digit, with no leading '0' unless it is just "0" |
| Text.PadStart | app/screens/CreateMatchScreen.tsx:70-71 | `padStart(len, fill)` keeps the string as its suffix, puts only `fill` before it, and reaches `len` characters when the string is shorter |
| Text.TwoDigits | app/screens/CreateMatchScreen.tsx:70-71 | `padStart(2, '0')` gives two digits for 0 to 99 that read back as the value, with a '0' prefixed only below 10 |
| CreateMatchForm.FormatDate | app/screens/CreateMatchScreen.tsx:69-74 | The date starts with the year's digits, and a valid date places '-' after the year and after the month |
| CreateMatchForm.FormatDateReadsBack | app/screens/CreateMatchScreen.tsx:69-74 | For a four-digit year the date has 10 characters, and year, month (0-based plus one) and day each read back from their positions |
| CreateMatchForm.FormatTime | app/screens/CreateMatchScreen.tsx:76-80 | "HH:MM" has 5 characters, with hours and minutes reading back from their positions |
| CreateMatchForm.NumberOf | app/screens/CreateMatchScreen.tsx:93 | `Number` of a blank string is 0, and a number results exactly when the trimmed text is decimal digits |
| CreateMatchForm.NumberOfNatToString | app/screens/CreateMatchScreen.tsx:93 | A written count reads back as itself, with or without surrounding spaces |
| CreateMatchForm.InitialForm | app/screens/CreateMatchScreen.tsx:21-29 | The form starts with an empty name and description, level 'novato' and no complex |
| CreateMatchForm.InitialPlayersIsTen | app/screens/CreateMatchScreen.tsx:29 | The initial player count reads as 10 |
| CreateMatchForm.ValidateForm | app/screens/CreateMatchScreen.tsx:82-99 | The form passes exactly when the name is not blank, a complex is loaded and the count is a number above one. Otherwise the first failing check, in that order, is reported |
| CreateMatchForm.InitialFormNeedsName | app/screens/CreateMatchScreen.tsx:83-86 | The untouched form is refused for its blank name |
| CreateMatchForm.MatchOfForm | app/screens/CreateMatchScreen.tsx:106-118 | The built record takes the name untrimmed, the loaded complex's id and name, the formatted date and time, the level and the description. It has one current player and the parsed count as required, so current < required whenever the count is above one |
| CreateMatchForm.HandleCreateMatch | app/screens/CreateMatchScreen.tsx:101-120 | `createMatch` is reached exactly when validation passes. The created match is the record built from the loaded complex and the parsed count, under the fresh id. Its required count is the parsed count, its players are well formed, and the catalog is unchanged |
| CreateMatchForm.NameSentUntrimmed | app/screens/CreateMatchScreen.tsx:107 | The created match keeps the name as typed |
| CreateMatchForm.PlayersRoundTrip | app/screens/CreateMatchScreen.tsx:93-96 | Any count above one typed as digits passes, and the model sends that count exactly (the source rounds counts above 2^53) |
| CreateMatchForm.TooFewPlayersRefused | app/screens/CreateMatchScreen.tsx:93-96 | "", "0" and "1" are refused as too few players |
| CreateMatchForm.LoadComplex | app/screens/CreateMatchScreen.tsx:38-49 | An empty route id loads nothing. A found complex is a catalog entry with that id, and nothing is loaded only when no entry has it |
| CreateMatchForm.CreatedMatchNamesRouteComplex | app/screens/CreateMatchScreen.tsx:42-45 | A created match names the route's complex, whose id `getComplexById` resolves to that same complex |
| AuthForms.HandleSignUp | app/screens/SignUpScreen.tsx:25-45 | A blank name, email or password is refused first. Then a password that differs at all from its confirmation is refused. Only then is `signUp` called, with the untrimmed values |
| AuthForms.AcceptedSignUpScoresHalf | app/screens/SignUpScreen.tsx:27-39 | An accepted sign-up gives the new user a score of 50 |
| AuthForms.SignInAfterSignUp | app/context/AuthContext.tsx:71-79 | Signing in with the email just signed up returns the signed-up user, whatever password is typed |
| AuthForms.HandleSignIn | app/screens/SignInScreen.tsx:24-38 | A blank email or password is refused. Any other email is passed to `signIn` untrimmed, with no format check |
| AuthForms.PaddedEmailMissesAccount | app/screens/SignInScreen.tsx:32 | " a@b.com" does not find a stored "a@b.com": a different user is made up, and its name starts with the space |
| AuthForms.StoredAccountFound | app/screens/SignInScreen.tsx:32 | Signing in with exactly the stored email activates the stored account |
| Matchmaking.UserLevel | app/screens/MatchmakingScreen.tsx:36 | A level is present exactly when there is a user with a level set |
| Matchmaking.JoinOffered | app/screens/MatchmakingScreen.tsx:145 | The join button is shown exactly when the match has room for one more player |
| Matchmaking.RecommendedMatches | app/screens/MatchmakingScreen.tsx:30-47 | With a level set, the list is `getMatchesByLevel` of that level: exactly the catalog's matches of that level, in catalog order. Otherwise it is `getMatches`, the whole catalog |
| Matchmaking.RecommendedCount | app/screens/MatchmakingScreen.tsx:36-40 | Copy for copy, the recommendations are the catalog's matches of the user's level, or the whole catalog without a level |
| Matchmaking.HandleJoinMatch | app/screens/MatchmakingScreen.tsx:49-59 | A join always succeeds, and the reload shows the same list as before |
| Matchmaking.FixturesOfferJoin | app/screens/MatchmakingScreen.tsx:145-152 | Every recommended fixture shows the join button, whatever the user's level |
| Matchmaking.FixturesRecommended | app/screens/MatchmakingScreen.tsx:36-40 | With no user or no level, all seven fixtures are shown. At 'intermedio', ids 1, 4 and 6 are shown |
| ComplexesView.InitialLoad | app/screens/ComplexesScreen.tsx:45-56 | The loaded list and the shown list are both the whole catalog |
| ComplexesView.ApplyQuery | app/screens/ComplexesScreen.tsx:30-43 | A blank query shows the loaded list without searching. Any other query shows `searchComplexes(query)` in every view, even before the first load: the matching catalog entries in catalog order |
| ComplexesView.ShownIsSearchResult | app/screens/ComplexesScreen.tsx:30-43 | Once loaded, the blank-query shortcut shows exactly what the search would return |
| ComplexesView.ToggleFavorite | app/screens/ComplexesScreen.tsx:62-68 | The toggled id is a favorite afterwards exactly when it was not before, and storage matches the list. A favorite id is removed by `removeFavorite`, which keeps the others in order. Any other complex is appended by `addFavorite` after the unchanged list |
| ComplexesView.ToggleKeepsOthers | app/screens/ComplexesScreen.tsx:62-68 | Every complex with another id keeps its number of copies. The toggled complex goes to zero copies, or gains one |
| ComplexesView.ToggleKeepsDistinct | app/screens/ComplexesScreen.tsx:62-68 | Toggling never makes an id appear twice |
| ComplexesView.ToggleTwiceRestores | app/screens/ComplexesScreen.tsx:62-68 | Toggling a non-favorite twice restores the exact original list |
| ComplexesView.ToggleTwiceMovesToEnd | app/screens/ComplexesScreen.tsx:62-68 | Toggling a favorite twice drops all its entries and appends it once at the end |
| Seqs.Filter | app/services/complexService.ts:62-66 | `filter` keeps exactly the elements satisfying the predicate and never lengthens the list |
| Seqs.Find | app/services/complexService.ts:74 | `find` returns the first element satisfying the predicate, or nothing exactly when no element does |
| Seqs.FilterIsSubsequence | app/context/FavoritesContext.tsx:46 | `filter` keeps the order of what it keeps and adds nothing |
| Seqs.FilterIdempotent | app/services/matchService.ts:131 | Filtering twice by the same condition equals filtering once |

## Left out

- Rendering, styles, alerts, animations and navigation are left out. They are presentation only; an alert is modelled as the outcome value the handler returns.
- The screens ProfileScreen, MatchesScreen, MatchDetailsScreen and ComplexDetailsScreen are left out. They repeat rules modelled here; only ProfileScreen's patch appears, as `Session.ProfileSavePatch`.
- Device storage and JSON serialisation are modelled as an abstract slot, `stored`, holding the value itself. A slot that cannot be parsed is not modelled.
- Ids made from `Date.now()` are a `freshId` parameter. Nothing is claimed about their uniqueness.
- Timing is not modelled: the simulated delays, `async`/`await`, and the debounce timer of the search box. `ComplexesView` applies each query's effect whole before the next. In the source, `clearTimeout` cancels only a search whose timer has not fired. A search already waiting on the service is not cancelled, and when it returns it replaces the shown list, even if the box has been cleared in the meantime.
- The complex's floating-point `distance` is not modelled.
- CreateMatchForm.NumberOf reads only strings that are decimal digits after trimming; every other string counts as NaN. The source's `Number` would also read signs, fractions, exponents, hexadecimal and `Infinity`, so a count such as "12.5" passes in the source but is refused here. The model also reads digit strings exactly, while `Number` rounds them to the nearest double: "9007199254740993" is sent as 9007199254740992, and past about 1.8e308 the count becomes `Infinity`. `CreateMatchForm.PlayersRoundTrip` is exact only for counts up to 2^53 in the source.
- CreateMatchForm.PlayersRoundTrip: sends the typed count exactly for every n > 1; the source agrees only up to 2^53, above which `Number` rounds to the nearest double.
- `Text.Lower` lower-cases only ASCII letters. Full Unicode case folding is not modelled; the fixtures' upper-case letters are all ASCII. A typed query is user text, though: "ATLÉTICO" lowers to "atlético" in the source and finds 'Club Atlético River', while the model keeps the "É" and finds nothing.
- A patch that sets `name`, `email` or `id` to `undefined` is not representable: `Session.UserPatch` holds a string whenever one of those keys is present. No caller sends such a patch.
- `signIn` and `signUp` failing (storage errors, the `catch` branches) is not modelled, because the modelled storage cannot fail.
