# Quiz round and product catalogue: a Dafny model

This project models the sequential logic of a small Android sample app. The app has a trivia-game screen and a product-catalogue screen.

- **Quiz round** (`Quiz`, `ChoiceList`, `GameRecords`):
  - `GameViewModel` walks the game's questions with `currentQuestionIndex`, which starts at -1. It counts correct answers in `currentScore`.
  - When no question is left, it stores a `GameRecord` and decides whether the result is a new high score.
  - A question's countdown and the two-second pause after an answer are explicit events: `Tick` and `Timeout`.
  - The best stored record for the game is a parameter (`lastHigh`).
  - `ChoiceAdapter` lets the player answer each question once and colours the choices afterwards.
  - A record's `percent` defaults to `score * 100 / maxScore` on 32-bit `Int`. The product can wrap around, the division truncates, and a zero `maxScore` throws.
  - Each class method is tied to a pure function of the round (`Advance`, `Finish`, `ChoiceDone`, `Expire`). Those functions state the round's invariant `RoundValid` and the step properties.
- **Product catalogue** (`Catalog`, `ProductList`, `MainScreen`, `ProductDiff`):
  - The repository narrows product lists to a custom assortment of favourite ids. This is a filter: order preserving, idempotent, and dependent only on the set of ids.
  - Refreshes write fetched products into the product table. The table is a map keyed by product id, and a write replaces the row with the same id.
  - The list view model holds the group selection. `Others` (id -1) means "no filter".
  - The view model routes the list source and the refresh by that selection.
  - The fragment's filter button flips between no filter and group 9.
  - The product adapter's diff predicates compare ids and whole rows.

Supporting modules:

- `Wrappers`: Kotlin's nullable values and thrown exceptions.
- `JvmInt`: 32-bit `Int` arithmetic.
- `Lists`: Kotlin's `List.filter` and its lemmas.
- `GameModel` and `Products`: the data classes, keeping only the fields the logic reads. `Product` keeps all its fields because `areContentsTheSame` compares them all.

A record's `percent` is only a default constructor argument (`app/src/main/java/wtf/test/myapplication/data/models/GameRecord.kt:13`). A record built with an explicit `percent` need not match `score * 100 / maxScore`. Where the default is used, it is evaluated with `Int` wrap-around and truncating division.

## Model

| member | source | states |
|---|---|---|
| `GameRecords.DefaultPercent` | app/src/main/java/wtf/test/myapplication/data/models/GameRecord.kt:13 | fails exactly when `maxScore` is 0 (division by zero); for `0 <= score <= 21474836` and `maxScore > 0` it is the exact quotient `score * 100 / maxScore` |
| `GameRecords.NewGameRecord` | app/src/main/java/wtf/test/myapplication/data/models/GameRecord.kt:6-13 | building a record without `percent` fails exactly when `maxScore` is 0; otherwise it keeps the given fields and its percent is the default |
| `GameRecords.PercentBounds` | app/src/main/java/wtf/test/myapplication/data/models/GameRecord.kt:13 | for `0 <= score <= maxScore` and `0 < maxScore <= 21474836`, the percent lies in [0, 100] |
| `GameRecords.PercentFullIffPerfect` | app/src/main/java/wtf/test/myapplication/data/models/GameRecord.kt:13 | under the same bounds, percent is 100 if and only if `score == maxScore` |
| `GameRecords.PercentMonotone` | app/src/main/java/wtf/test/myapplication/data/models/GameRecord.kt:13 | for a fixed `maxScore`, a higher score never gives a lower percent |
| `GameRecords.PercentOverflows` | app/src/main/java/wtf/test/myapplication/data/models/GameRecord.kt:13 | above the bound the product wraps around: a perfect 30000000/30000000 game gets percent -43 |
| `Quiz.NewHighScore` | app/src/main/java/wtf/test/myapplication/ui/main/GameViewModel.kt:127-132 | the record is reported if and only if its percent is strictly above the stored record's, or above 0 when nothing is stored; otherwise null |
| `Quiz.TickValue` | app/src/main/java/wtf/test/myapplication/ui/main/GameViewModel.kt:110-112 | with `0 <= millisUntilFinished <= durationMillis` and a positive duration, the progress is the rounded-down thousandth of the duration, in [0, 1000], and 1000 at the start |
| `Quiz.FinalRecord` | app/src/main/java/wtf/test/myapplication/ui/main/GameViewModel.kt:122 | the finishing record has `score = currentScore`, `maxScore = questions.size`, the game's id and the default percent; it cannot be built for an empty question list |
| `Quiz.Finish` | app/src/main/java/wtf/test/myapplication/ui/main/GameViewModel.kt:121-134 | finishing stores the final record and sets the game state to finished, with the record as new high score exactly when `NewHighScore` says so; nothing else changes; fails only for an empty list |
| `Quiz.Advance` | app/src/main/java/wtf/test/myapplication/ui/main/GameViewModel.kt:89-105 | keeps `RoundValid` (index in [-1, size - 1], shown question = question at index); past the last question it cancels the countdown and finishes with the index unchanged; otherwise it moves the index up by exactly one, shows that question and starts its countdown only when the question has a time |
| `Quiz.ChoiceDone` | app/src/main/java/wtf/test/myapplication/ui/main/GameViewModel.kt:146-155 | the score goes up by one exactly when the choice is correct and is unchanged otherwise; the 2000 ms pause starts |
| `Quiz.Expire` | app/src/main/java/wtf/test/myapplication/ui/main/GameViewModel.kt:99-116 | a cancelled countdown never fires; an expired question countdown resets the progress display to 0; expiry then advances or finishes, never fails and keeps `RoundValid` |
| `Quiz.PerfectGameIsNewHighScore` | app/src/main/java/wtf/test/myapplication/ui/main/GameViewModel.kt:122-132 | for up to 21474836 questions, a perfect game is a new high score unless a stored record already has 100 percent |
| `Quiz.ScorelessGameIsNoHighScore` | app/src/main/java/wtf/test/myapplication/ui/main/GameViewModel.kt:122-132 | while stored percents are not negative, a game without a correct answer is never a new high score |
| `Quiz.GameViewModel.constructor` | app/src/main/java/wtf/test/myapplication/ui/main/GameViewModel.kt:67-87 | starts at index -1, score 0 and state (false, null); a load error or an empty game (division by zero) shows its message; otherwise the first question is shown |
| `Quiz.GameViewModel.GoToNextQuestion` | app/src/main/java/wtf/test/myapplication/ui/main/GameViewModel.kt:89-105 | the new state is `Advance` of the old; for an empty list only the countdown is cancelled and the call fails |
| `Quiz.GameViewModel.RestartTimer` | app/src/main/java/wtf/test/myapplication/ui/main/GameViewModel.kt:107-119 | the countdown is replaced by a new one of the given duration and job |
| `Quiz.GameViewModel.FinishGame` | app/src/main/java/wtf/test/myapplication/ui/main/GameViewModel.kt:121-134 | the new state is `Finish` of the old; fails, changing nothing, for an empty list |
| `Quiz.GameViewModel.OnChoiceDone` | app/src/main/java/wtf/test/myapplication/ui/main/GameViewModel.kt:146-155 | the new state is `ChoiceDone` of the old and `RoundValid` is kept |
| `Quiz.GameViewModel.Tick` | app/src/main/java/wtf/test/myapplication/ui/main/GameViewModel.kt:110-112 | the progress display becomes `TickValue`, within [0, 1000], and nothing else changes |
| `Quiz.GameViewModel.Timeout` | app/src/main/java/wtf/test/myapplication/ui/main/GameViewModel.kt:114-116 | the new state is `Expire` of the old and `RoundValid` is kept |
| `Quiz.GameViewModel.OnSnackbarShown` | app/src/main/java/wtf/test/myapplication/ui/main/GameViewModel.kt:139-141 | clears the pending message and changes nothing else |
| `ChoiceList.ChoiceColour` | app/src/main/java/wtf/test/myapplication/ui/main/ChoiceAdapter.kt:70-73 | neutral before an answer; "correct" if and only if an answer is recorded and the choice is correct (the selected one included); "wrong" if and only if it is the selected choice and incorrect |
| `ChoiceList.ChoiceDiffPredicatesCoincide` | app/src/main/java/wtf/test/myapplication/ui/main/ChoiceAdapter.kt:88-94 | for choices, `areContentsTheSame` holds if and only if `areItemsTheSame` does |
| `ChoiceList.ChoiceAdapter.constructor` | app/src/main/java/wtf/test/myapplication/ui/main/ChoiceAdapter.kt:18 | no answer is recorded at first |
| `ChoiceList.ChoiceAdapter.ChoiceSelected` | app/src/main/java/wtf/test/myapplication/ui/main/ChoiceAdapter.kt:45-57 | once an answer is recorded a click changes nothing and the listener is not called; the first click records the choice and calls the listener once with it |
| `ChoiceList.ChoiceAdapter.SubmitList` | app/src/main/java/wtf/test/myapplication/ui/main/ChoiceAdapter.kt:76-79 | shows the new list (empty for null) and forgets the recorded answer, so every choice is neutral and the new question can be answered |
| `GameRecordQueries.HighScoreQueryMissesBest` | app/src/main/java/wtf/test/myapplication/data/GameRecordDao.kt:14 | with 3/4 and 1/4 stored, the query as written may return 1/4, so a new 2/4 game is announced as a high score; the intended query rejects it |
| `GameRecordQueries.HighScore` | app/src/main/java/wtf/test/myapplication/data/GameRecordDao.kt:14-15 | null if and only if the game has no stored record; otherwise a record of the game whose percent is the highest |
| `GameRecordQueries.NewHighScoreBeatsHistory` | app/src/main/java/wtf/test/myapplication/ui/main/GameViewModel.kt:127-132 | against the intended query, and with stored percents not negative, a game is a new high score if and only if its percent is positive and beats every stored result of the game |
| `Catalog.ApplyCustomAssortment` | app/src/main/java/wtf/test/myapplication/ProductRepository.kt:102-104 | a product is kept if and only if it is in the input and its id is in the assortment; never longer than the input |
| `Catalog.AssortmentIsSubsequence` | app/src/main/java/wtf/test/myapplication/ProductRepository.kt:103 | the result is a subsequence of the input (relative order kept) |
| `Catalog.AssortmentCounts` | app/src/main/java/wtf/test/myapplication/ProductRepository.kt:103 | each kept product occurs as often as in the input, each dropped one not at all |
| `Catalog.AssortmentIdempotent` | app/src/main/java/wtf/test/myapplication/ProductRepository.kt:103 | applying the same assortment twice equals applying it once |
| `Catalog.AssortmentDependsOnIdSet` | app/src/main/java/wtf/test/myapplication/ProductRepository.kt:103 | assortments with the same ids, in any order or multiplicity, give the same result |
| `Catalog.AssortmentAppend` | app/src/main/java/wtf/test/myapplication/ProductRepository.kt:103 | the assortment of two concatenated lists is the concatenation of their assortments |
| `Catalog.FailedFavouritesShowNothing` | app/src/main/java/wtf/test/myapplication/ProductRepository.kt:28-30 | with the empty-list fallback of a failed favourites fetch, no product is shown |
| `Catalog.ApplyMainSafeSort` | app/src/main/java/wtf/test/myapplication/ProductRepository.kt:110-114 | returns the same list as `ApplyCustomAssortment`: it filters and does not sort |
| `Catalog.ProductsOfGroup` | app/src/main/java/wtf/test/myapplication/ProductRepository.kt:156 | a fetched product is kept if and only if its `productGroupId` is the group's id; never longer than the input |
| `Catalog.ShouldUpdateProductsCache` | app/src/main/java/wtf/test/myapplication/ProductRepository.kt:119-122 | always true |
| `Catalog.InsertAll` | app/src/main/java/wtf/test/myapplication/data/ProductDao.kt:24-25 | writing a batch with REPLACE adds exactly the batch's ids to the table and leaves every other row unchanged |
| `Catalog.InsertAllWritesBatch` | app/src/main/java/wtf/test/myapplication/data/ProductDao.kt:24-25 | every row the batch writes holds a product of the batch with that id |
| `Catalog.InsertAllLastWins` | app/src/main/java/wtf/test/myapplication/data/ProductDao.kt:24-25 | when the batch holds several products with one id, the last of them is the row that stays |
| `Catalog.ProductRepository.constructor` | app/src/main/java/wtf/test/myapplication/ProductRepository.kt:21-25 | starts from the given product table |
| `Catalog.ProductRepository.TryUpdateRecentProductsCache` | app/src/main/java/wtf/test/myapplication/ProductRepository.kt:130-132 | always fetches and writes every fetched product; a network error leaves the table unchanged and is reported |
| `Catalog.ProductRepository.TryUpdateRecentProductsForProductGroupCache` | app/src/main/java/wtf/test/myapplication/ProductRepository.kt:140-142 | always fetches and writes exactly the group's products; a network error leaves the table unchanged and is reported |
| `Catalog.ProductRepository.FetchRecentProducts` | app/src/main/java/wtf/test/myapplication/ProductRepository.kt:147-150 | writes every fetched product into the table |
| `Catalog.ProductRepository.FetchProductsForProductGroup` | app/src/main/java/wtf/test/myapplication/ProductRepository.kt:155-159 | returns, and writes, exactly the fetched products of the group in fetched order |
| `ProductList.VisibleProducts` | app/src/main/java/wtf/test/myapplication/ui/main/ProductListViewModel.kt:55-62 | a product is shown if and only if it is in the table, its id is in the assortment, and, when a group other than `Others` is selected, it belongs to that group |
| `ProductList.VisibleProductsInOrder` | app/src/main/java/wtf/test/myapplication/ui/main/ProductListViewModel.kt:55-62 | the shown products keep the order of the table's rows |
| `ProductList.RefreshedTable` | app/src/main/java/wtf/test/myapplication/ui/main/ProductListViewModel.kt:68-74 | an `Others` refresh adds every fetched id; a group refresh changes only rows of that group; no row is removed |
| `ProductList.SpinnerStaysOnAfterSuccess` | app/src/main/java/wtf/test/myapplication/ui/main/ProductListViewModel.kt:66-76 | as written, the spinner is still on after a successful refresh |
| `ProductList.SpinnerAfterRefresh` | app/src/main/java/wtf/test/myapplication/ui/main/ProductListViewModel.kt:66-76 | corrected: the spinner is off once a refresh is over |
| `ProductList.ProductListViewModel.constructor` | app/src/main/java/wtf/test/myapplication/ui/main/ProductListViewModel.kt:64-65 | the selection starts as `Others`, so the list is not filtered |
| `ProductList.ProductListViewModel.IsFiltered` | app/src/main/java/wtf/test/myapplication/ui/main/ProductListViewModel.kt:98 | filtered if and only if the selected group's id is not -1 |
| `ProductList.ProductListViewModel.SetGrowZoneNumber` | app/src/main/java/wtf/test/myapplication/ui/main/ProductListViewModel.kt:84-86 | the selection becomes `ProductGroup(num)` (the latest offer wins), filtered if and only if `num != -1` |
| `ProductList.ProductListViewModel.ClearProductGroupFilter` | app/src/main/java/wtf/test/myapplication/ui/main/ProductListViewModel.kt:91-93 | the selection becomes `Others` and the list is not filtered |
| `ProductList.ProductListViewModel.OnSnackbarShown` | app/src/main/java/wtf/test/myapplication/ui/main/ProductListViewModel.kt:103-105 | clears the pending message |
| `ProductList.ProductListViewModel.RefreshForSelection` | app/src/main/java/wtf/test/myapplication/ui/main/ProductListViewModel.kt:66-78 | `Others` refreshes every product, any other group only its own; an error shows its message and ends all later refreshes; the spinner follows the corrected rule `SpinnerAfterRefresh` |
| `MainScreen.ToggledGroup` | app/src/main/java/wtf/test/myapplication/ui/main/MainFragment.kt:59-67 | a press clears an active filter, or selects group 9 when unfiltered |
| `MainScreen.TwoPressesFromUnfiltered` | app/src/main/java/wtf/test/myapplication/ui/main/MainFragment.kt:59-67 | starting unfiltered, two presses return to the unfiltered list |
| `MainScreen.TwoPressesRestore` | app/src/main/java/wtf/test/myapplication/ui/main/MainFragment.kt:59-67 | two presses restore the selection if and only if it was `Others` or group 9 |
| `MainScreen.UpdateDataByGroup` | app/src/main/java/wtf/test/myapplication/ui/main/MainFragment.kt:59-67 | each press flips `IsFiltered()` and sets the selection to `ToggledGroup` of the old one |
| `ProductDiff.ContentsImplyItems` | app/src/main/java/wtf/test/myapplication/ui/main/ProductAdapter.kt:59-65 | equal contents imply the same item |
| `ProductDiff.ItemsTheSameIsEquivalence` | app/src/main/java/wtf/test/myapplication/ui/main/ProductAdapter.kt:59-61 | same-item (equal ids) is reflexive, symmetric and transitive |
| `ProductDiff.FavouriteChangeRedraws` | app/src/main/java/wtf/test/myapplication/ui/main/ProductAdapter.kt:59-65 | a copy of a product with `isFavorite` flipped is the same item with different contents |

## Left out

- Framework concurrency is not modelled: `CountDownTimer`, LiveData, `ConflatedBroadcastChannel`, the Flow operators, dispatchers and coroutine scopes. Timer callbacks and channel offers are sequential method calls. Only the latest offered selection is kept.
- The race between storing the finished record (on the IO dispatcher) and reading the best stored record is not modelled. `lastHigh` is an input, and whether it already includes the current record is left open.
- Network calls are not modelled; their answers are parameters. The favourites are product names matched against `productId`, and the model sees only strings.
- The single-flight favourites cache is not part of this model. Its answer, with the empty-list fallback, is an input (`CachedAssortment`).
- Only some Room DAO operations are modelled:
  - `ProductDao.insertAll` with REPLACE is `Catalog.InsertAll`.
  - `GameRecordDao`'s high-score query is `GameRecordQueries`.
  - `GameRecordDao`'s insert is the `saved` list of a round.
- The product queries ordered by name are not modelled. Their rows are inputs to `ProductList.VisibleProducts`. Re-emitting a query when its table changes is not modelled either.
- `GameRepository`, the singletons, dependency injection and database seeding are plumbing around the DAOs and the network.
- View code is not modelled: the fragments' observers and dialogs, view binding, navigation, the product detail screen, and the redraw after a click.
- `ChoiceList.ChoiceAdapter.SubmitList`: `ListAdapter`'s asynchronous diffing is not modelled; the new list replaces the old one at once.
- The game loads its questions exactly once, so the single emission of the game is folded into `Quiz.GameViewModel.constructor`.
- The spinner of the quiz screen is not modelled.
- `GameState` is not part of the available sources. Its two fields (`finished`, `newHighScore`) come from how it is used.
- `Quiz.GameViewModel.OnChoiceDone` requires a question on screen, because clicks come only from the displayed choices.
- `GameRecords.PercentBounds`, `GameRecords.PercentFullIffPerfect` and `GameRecords.PercentMonotone` are stated only for `maxScore <= 21474836`. Above that, `score * 100` overflows `Int`, as `PercentOverflows` shows.
- `Quiz.PerfectGameIsNewHighScore` is stated only for up to 21474836 questions, for the same reason.
- `Quiz.TickValue` does not model `Long` wrap-around. Within its preconditions the product stays far below the `Long` range.
- `ProductList.ProductListViewModel.RefreshForSelection` turns the spinner off after every refresh, following the corrected `ProductList.SpinnerAfterRefresh`. The code as written leaves the spinner on after a successful refresh (`ProductList.SpinnerStaysOnAfterSuccess`; see Findings). So the method does not reproduce the spinner left showing by `ProductListViewModel.kt:69-76`.
- `ProductList.ProductListViewModel.constructor`: the channel's brief "no value yet" state before the constructor offers `Others` is not modelled.

## Findings

| source | as written | input that shows it | evidently intended | confidence | as-written member | corrected member |
|---|---|---|---|---|---|---|
| app/src/main/java/wtf/test/myapplication/data/GameRecordDao.kt:14 | `ORDER BY score/maxScore` is integer division, so every result short of perfect gets the key 0 and any of them may be returned | stored results 3/4 and 1/4: the query may return 1/4, and a new 2/4 game is then announced as a high score | return the record with the highest percent | high, not executed | `GameRecordQueries.HighScoreQueryMissesBest` | `GameRecordQueries.HighScore` |
| app/src/main/java/wtf/test/myapplication/ui/main/ProductListViewModel.kt:66-76 | the spinner is switched off only in `onCompletion`, which runs only when the selection stream ends (on an error) | any successful refresh leaves the spinner on | switch it off after each refresh, as the quiz screen does with `onEach` | medium, not executed | `ProductList.SpinnerStaysOnAfterSuccess` | `ProductList.SpinnerAfterRefresh` |
