# seektam: scrape-to-rows pipeline, modelled in Dafny

seektam scrapes the meal catalogue of the Korean food information site
(koreanfood.rda.go.kr) and loads it into a relational database. This project
models the three stages of that pipeline and proves properties of each:

- **Scraping** (`koreafood.dfy`, module `KoreaFood`): the `Food` record,
  `get_food_analysis` and `get_food_list`.
  - `get_food_analysis` fetches the two pages of a dish's nutrient table,
    drops each page's total row and merges rows by ingredient name.
  - `get_food_list` walks the listing pages from page 1. It takes three
    category cells per dish and extracts each dish's `meal_code`. It stops
    after the first page without dish anchors.
  - HTTP and HTML selection are parameters. A detail page arrives as its
    rows of cell texts. A listing page arrives as its category-cell texts and
    its (text, href) anchors. The requests issued and the dishes yielded are
    recorded in order in a trace of events.
- **Normalisation** (`normalise.dfy`, module `Normalise`): `food_to_model` in
  both loaders. It copies the dish's name and categories. For each
  ingredient it reuses the aliment already stored under that name, or
  builds a new one by dividing each listed nutrient column by the weight.
  - The crawl loader strips commas from every raw value and takes 1.0 for
    an empty weight.
  - The db loader strips commas from the weight only and takes 1.0 for a
    zero weight.
- **Storing** (`store.dfy`, `database.dfy`, `load.dfy`): the insert-or-skip
  helpers `add_model`, `add_food`, `add_aliment` and `add_food_aliment`, and
  the load loop of `seektam/db/loader.py`.
  - The database is the class `Database.Session`. Its fields are the food
    table and the aliment table (each a name → row map plus the next id) and
    the set of (food id, aliment id) links.
  - Each of its methods is proved equal to a function of module `Store`.
    Those functions carry the lemmas.

Supporting modules:

- `wrappers.dfy`: `Option`, `Result` and the Python exceptions that can
  surface.
- `text.dfy`: `str.strip`, `split`, `startswith` and `replace(',', '')`.
- `numbers.dfy`: `float()` on decimal strings, into `real`.
- `schema.dfy`: the aliment table's 19 nutrient columns and the two column
  lists.

Some lemma arguments stand for input the program receives from elsewhere:

- `keys` stands for the iteration order of a dish's ingredient dictionary.
  Python 2 does not define that order; `Enumerates` requires each key to
  appear once.
- `cells` is the raw values after `float()`.
- `last` is a listing page that ends the listing.

## Model

| member | source | states |
|---|---|---|
| KoreaFood.NewFood | seektam/crawl/koreafood.py:15-20 | a new dish has the given name, empty category labels and no ingredients |
| KoreaFood.WithoutTotal | seektam/crawl/koreafood.py:39 | the rows kept are exactly the page's rows minus its last (total) row |
| KoreaFood.MergeRow | seektam/crawl/koreafood.py:40-44 | one row fails with IndexError exactly when it has no name, or names a new ingredient and has no weight; otherwise the table's ingredients become the old ones plus the row's name |
| KoreaFood.MergeRows | seektam/crawl/koreafood.py:39-44 | merging rows fails only with IndexError, and a successful merge keeps every ingredient already present |
| KoreaFood.MergeRowsStep | seektam/crawl/koreafood.py:41-44 | one row adds its name to the keys; a known ingredient's list gains `data[2:]`; a new one starts with `data[1]` followed by `data[2:]`; no other ingredient changes |
| KoreaFood.MergeRowsKeys | seektam/crawl/koreafood.py:39-44 | the merged table's ingredients are the earlier ones plus the first-cell names of the rows |
| KoreaFood.MergeRowsExtends | seektam/crawl/koreafood.py:44 | an ingredient already present keeps its list and gains the cells after the weight of each of its rows, in row order |
| KoreaFood.MergeRowsIntroduces | seektam/crawl/koreafood.py:41-44 | a new ingredient's list is the weight of its first row, then the cells after the weight of all its rows in row order; no later row adds a weight |
| KoreaFood.ContributionLength | tests/crawl/test_koreafood.py:127-144 | the cells an ingredient gains number Σ(len(row) − 2) over its rows |
| KoreaFood.MergeRowsSucceeds | seektam/crawl/koreafood.py:40-44 | the merge succeeds iff every row has a name, and also a weight when its ingredient was not seen before (IndexError otherwise) |
| KoreaFood.MergeRowsAppend | seektam/crawl/koreafood.py:34-44 | merging page 1's rows and then page 2's is merging their concatenation |
| KoreaFood.AnalysisFrom | seektam/crawl/koreafood.py:34-44 | from page n on, the fetch requests pages n, n + 1, … in order, at least one and never past page 2, and on success every one of them |
| KoreaFood.LastPage | seektam/crawl/koreafood.py:34-44 | the last page issues one request; a failed request fails the fetch, otherwise the result is the merge of its rows without the total |
| KoreaFood.AnalysisRequests | seektam/crawl/koreafood.py:34-37 | requests go to page 1, then page 2, and differ only in `h_NutriPage`; a failed first request ends the fetch after one request |
| KoreaFood.AnalysisMeaning | seektam/crawl/koreafood.py:27-46 | on success both pages were requested and served, and the result is the merge of both pages' rows, page 1 first, each without its total row |
| KoreaFood.TotalRowIgnored | seektam/crawl/koreafood.py:39 | whatever each page's last row holds, the analysis is the same |
| KoreaFood.MergePage | seektam/crawl/koreafood.py:39-44 | the row loop of one page returns the merge of its rows, or the error of the first row that cannot be merged |
| KoreaFood.FetchPage | seektam/crawl/koreafood.py:35-44 | page n is requested; a failed request or row ends the fetch with that error after this request, otherwise the fetch goes on from page n + 1 with the merged table |
| KoreaFood.GetFoodAnalysis | seektam/crawl/koreafood.py:23-46 | the loop over pages and rows returns the analysis and the requests of `Analysis` |
| KoreaFood.FirstWithPrefix | seektam/crawl/koreafood.py:72 | the chosen argument is the first with the prefix; none is chosen only when no argument has it |
| KoreaFood.MealCode | seektam/crawl/koreafood.py:71-73 | an `href` without `?` fails with IndexError, every failure is an IndexError, and an extracted code holds no `=` |
| KoreaFood.MealCodeMeaning | seektam/crawl/koreafood.py:71-73 | extraction fails iff the href has no `?` or no query argument starts with `meal_code`; otherwise the code is the text after the last `=` of the first such argument |
| KoreaFood.FoodEntryMeaning | seektam/crawl/koreafood.py:67-74 | a built dish has the stripped anchor text as name, the first two category cells as labels, and the analysis of its meal code as table |
| KoreaFood.FetchDish | seektam/crawl/koreafood.py:67-74 | the dish construction returns `FoodEntry`'s dish or error and its requests |
| KoreaFood.PageRequestsNone | seektam/crawl/koreafood.py:66-78 | making a page's dishes issues no listing request |
| KoreaFood.PageCount | seektam/crawl/koreafood.py:66-78 | a page yields at most one dish per anchor, and exactly one per anchor iff none fails |
| KoreaFood.PageFoods | seektam/crawl/koreafood.py:66-78 | the k-th dish yielded is the one made from the k-th anchor with the category cells left after k dishes |
| KoreaFood.PageError | seektam/crawl/koreafood.py:66-76 | a failing page fails with the error of the dish right after the ones it yielded |
| KoreaFood.NthShift | seektam/crawl/koreafood.py:78 | dropping three cells k + 1 times is dropping three, then k times |
| KoreaFood.PageDishes | seektam/crawl/koreafood.py:64-78 | on a page without failure, the k-th dish has category cells 3k and 3k+1 as labels, and there is one dish per anchor |
| KoreaFood.GetPageDishes | seektam/crawl/koreafood.py:64-78 | the anchor loop produces `Page`'s trace and outcome, and reports whether the page had an anchor |
| KoreaFood.ListingFrom | seektam/crawl/koreafood.py:56-62 | a run from page n starts by requesting listing page n |
| KoreaFood.ListingRequests | seektam/crawl/koreafood.py:56-82 | a run requests page n and, only when that page had anchors and all its dishes were made, the pages from n + 1 on; a run that stops without error stopped at a page without anchors |
| KoreaFood.ListingPages | seektam/crawl/koreafood.py:56-59 | listing pages are requested as 1, 2, 3, … in order, never past the page that ends the listing |
| KoreaFood.ListingContinues | seektam/crawl/koreafood.py:80-82 | every page requested before the last one had dish anchors |
| KoreaFood.ListingEndsEmpty | seektam/crawl/koreafood.py:80-82 | a run without error ends at the first page with no anchors |
| KoreaFood.EmptyFirstPage | seektam/crawl/koreafood.py:80-81 | a first page without anchors ends the run after one request, with nothing yielded |
| KoreaFood.GetFoodList | seektam/crawl/koreafood.py:49-82 | the generator loop produces the trace and the outcome of `Listing` |
| Text.Strip | seektam/crawl/koreafood.py:67 | the stripped name neither starts nor ends with whitespace |
| Text.StripKeeps | seektam/crawl/koreafood.py:67 | stripping keeps every non-whitespace character |
| Text.StripIdempotent | seektam/crawl/koreafood.py:67 | stripping twice is stripping once |
| Text.Split | seektam/crawl/koreafood.py:71 | splitting yields at least one piece and no piece holds the separator |
| Text.JoinSplit | seektam/crawl/koreafood.py:71-73 | joining the pieces with the separator gives back the string |
| Text.SplitJoin | seektam/crawl/koreafood.py:71 | splitting pieces joined by a separator they do not hold gives the pieces back |
| Text.SplitNoSeparator | seektam/crawl/koreafood.py:71 | a string without the separator splits into itself alone |
| Text.SplitSeveral | seektam/crawl/koreafood.py:71 | there is a second piece iff the separator occurs |
| Text.LastPieceIsTail | seektam/crawl/koreafood.py:73 | the last piece is the text after the last separator |
| Text.RemoveCommas | seektam/crawl/loader.py:53 | the result has no comma and the same number of every other character; RemoveCommasAppend and RemoveCommasChar fix their order |
| Text.RemoveCommasChar | seektam/crawl/loader.py:53 | a comma on its own is removed, any other character is kept |
| Text.RemoveCommasAppend | seektam/crawl/loader.py:53 | removing commas from a concatenation is removing them from each part, so the other characters keep their order |
| Text.RemoveCommasNoComma | seektam/crawl/loader.py:53 | a value without a comma is left as it is |
| Text.RemoveCommasIdempotent | seektam/crawl/loader.py:53 | removing commas twice is removing them once |
| Numbers.ParseFloat | seektam/db/loader.py:51 | `float()` of a blank or whitespace-only string fails |
| Numbers.ParseRejectsComma | seektam/db/loader.py:53 | `float()` rejects every string holding a comma |
| Numbers.ParseEmpty | seektam/db/loader.py:51 | `float()` rejects the empty string |
| Numbers.ParseDigits | seektam/db/loader.py:51 | a string of decimal digits parses to its value |
| Numbers.NegativeHasMinus | seektam/db/loader.py:53 | `float()` gives a negative value only for a text whose first non-space character is `-` |
| Schema.SchemaOrder | seektam/model/food.py:36-54 | the full column list holds each of the 19 columns at its own place |
| Schema.SourceOrder | seektam/crawl/loader.py:45-50 | the loaders' 16 columns follow the schema's order up to calcium, then skip three |
| Schema.SourceMembers | seektam/crawl/loader.py:45-50 | the loaders' list names every column except phosphorus, iron and sodium |
| Store.AddModelOutcome | seektam/db/loader.py:61-76 | False iff a row matches the filter; False and errors change nothing; True adds exactly the instance under a fresh id and keeps every other row and link |
| Store.AddModelValid | seektam/db/loader.py:61-76 | inserting keeps names unique, ids unique and below the counter, and links pointing at stored rows |
| Store.NameFilterMatches | seektam/db/loader.py:96-103 | under the schema, the name filter matches iff the name is stored |
| Store.AddFoodOutcome | seektam/db/loader.py:96-98 | add_food never fails and answers True iff the name was new; afterwards the name is stored and nothing else changes |
| Store.AddAlimentOutcome | seektam/db/loader.py:101-103 | add_aliment never fails and answers True iff the name was new; afterwards the name is stored and nothing else changes |
| Store.AddFoodTwice | tests/crawl/test_loader.py:219-222 | adding the same food twice answers True then False, and the second call changes nothing |
| Store.AddAlimentTwice | tests/crawl/test_loader.py:225-228 | adding the same aliment twice answers True then False, and the second call changes nothing |
| Store.AddFoodAlimentOutcome | seektam/db/loader.py:79-93 | the link between the stored ids is made iff both names are stored, otherwise NoResultFound; the tables never change |
| Store.AddFoodAlimentIdempotent | seektam/model/food.py:13-19 | a repeated link request leaves the link set as it was |
| Store.AddFoodAlimentValid | seektam/db/loader.py:79-93 | linking keeps the schema's constraints |
| Store.CrawlAddFoodAlimentNeverLinks | seektam/crawl/loader.py:80-93 | as written, the crawl loader's add_food_aliment never changes the store: NoResultFound when a name is not stored, AttributeError exactly when the db loader's version would link the pair |
| Store.CrawlLinkExample | seektam/crawl/loader.py:80-93 | on fresh tables with one food and one aliment, the crawl loader's link leaves the link table empty where the db loader's adds (1, 1) |
| Database.Session.constructor | seektam/db/loader.py:114-119 | a session on a fresh database, whose tables `create_all` has just created, opens on empty tables, which meet the constraints; a database that already holds rows is the `Valid` state the other members start from |
| Database.Session.AddModel | seektam/db/loader.py:61-76 | the new content and the answer are those of `Store.AddModel`; the constraints are kept |
| Database.Session.AddFood | seektam/db/loader.py:96-98 | the new content and the answer are those of `Store.AddFood`; the constraints are kept |
| Database.Session.AddAliment | seektam/db/loader.py:101-103 | the new content and the answer are those of `Store.AddAliment`; the constraints are kept |
| Database.Session.AddFoodAliment | seektam/db/loader.py:79-93 | the new links and the outcome are those of `Store.AddFoodAliment`; the constraints are kept |
| Normalise.Weight | seektam/crawl/loader.py:54 | the weight fails with IndexError exactly when there are no raw values, otherwise only with ValueError; the db loader's weight (seektam/db/loader.py:51) is never zero |
| Normalise.Values | seektam/crawl/loader.py:55-56 | the column loop fails only with IndexError, ValueError or ZeroDivisionError, and a successful run keeps every column already set |
| Normalise.WithoutCommas | seektam/crawl/loader.py:53 | every raw value loses its commas, and nothing else is changed |
| Normalise.NewAliment | seektam/crawl/loader.py:52 | a built aliment is an aliment named after its key |
| Normalise.BuildAliment | seektam/db/loader.py:41-53 | the `setattr` loop returns the aliment or the error of `NewAliment` |
| Normalise.FoodToModel | seektam/db/loader.py:29-58 | the key loop returns `ModelOf` against the session's content |
| Normalise.ValuesSucceeds | seektam/crawl/loader.py:55-56 | the column loop succeeds iff every listed column's raw value exists and parses and, with any column listed, the weight is not zero |
| Normalise.ValuesKeys | seektam/crawl/loader.py:55-56 | exactly the listed columns get set; nothing else changes |
| Normalise.ValuesSets | seektam/crawl/loader.py:55-56 | with no repeated column, column `columns[j]` holds raw value `j + 1` divided by the weight |
| Normalise.NewAlimentMeaning | seektam/crawl/loader.py:52-56 | an aliment is built iff the weight and every listed value parse and, with any column, the weight is not zero; it then holds exactly the listed columns, each its raw value over the weight |
| Normalise.CollectMeaning | seektam/crawl/loader.py:36-58 | the key loop succeeds iff every key yields an aliment, and then appends them in key order; otherwise it fails with the first failing key's error |
| Normalise.ModelMeaning | seektam/crawl/loader.py:29-61 | name and categories are copied; there is one aliment per key in key order; the call fails iff some key yields none, with the first such key's error |
| Normalise.AlimentForMeaning | seektam/crawl/loader.py:37-41 | a stored aliment with the key's name is returned unchanged; otherwise one is built from the key's raw values; either way it is named after the key |
| Normalise.NoAliments | tests/crawl/test_loader.py:86-91 | a dish without ingredients gives the bare food record, whatever is stored |
| Normalise.ValuesReadsPrefix | seektam/crawl/loader.py:55-56 | the column loop reads only raw positions up to the number of columns |
| Normalise.IgnoresExtraValues | seektam/crawl/loader.py:55-56 | raw values past the last listed column never matter |
| Normalise.CrawlIgnoresCommas | seektam/crawl/loader.py:53 | for the crawl loader, removing commas beforehand changes nothing |
| Normalise.EmptyWeight | seektam/crawl/loader.py:54 | an empty weight is 1.0 for the crawl loader, and a parse error for the db loader |
| Normalise.CrawlWeightParsed | seektam/crawl/loader.py:54 | a first value that parses is the crawl loader's weight, unchanged even when zero |
| Normalise.ZeroWeight | seektam/db/loader.py:51 | a zero weight is 1.0 for the db loader; the crawl loader divides by zero |
| Normalise.ZeroWeightFails | seektam/crawl/loader.py:55-56 | dividing by a zero weight fails as soon as one column is listed |
| Normalise.DbRejectsCommas | seektam/db/loader.py:52-53 | a listed nutrient value holding a comma makes the db loader fail |
| Normalise.ColumnListsDistinct | seektam/crawl/loader.py:45-50 | neither column list repeats a column |
| Normalise.SourceColumnsSkip | seektam/crawl/loader.py:45-56 | as written, exactly the columns other than phosphorus, iron and sodium get set |
| Normalise.SourceColumnsShift | seektam/crawl/loader.py:55-56 | as written, the loaders' column j reads raw position j + 1, which from potassium on lies three places before the schema position |
| Normalise.SourceColumnsMisread | seektam/crawl/loader.py:45-56 | as written, potassium reads the raw value at phosphorus's place, and phosphorus, iron and sodium stay unset |
| Normalise.SchemaColumnsKeepPositions | seektam/model/food.py:36-54 | with the full list, every column is set from its own schema position |
| Normalise.SampleFacts | tests/crawl/test_koreafood.py:133-137 | the sample row holds 20 numbers, phosphorus 45.5 and potassium 52.5 |
| Normalise.SampleAsWritten | tests/crawl/test_koreafood.py:133-137 | as written, the sample's potassium is 45.5/50 rather than 52.5/50, and phosphorus is unset |
| Normalise.SampleCorrected | tests/crawl/test_koreafood.py:133-137 | with the full list, the sample's phosphorus is 45.5/50 and its potassium 52.5/50 |
| Load.LoadDish | seektam/db/loader.py:122-126 | one turn of the load loop gives the content and outcome of `LoadFood` |
| Load.Loader | seektam/db/loader.py:121-126 | the load loop, with the loaders' 16-name column list, gives the content and outcome of `LoadAll` |
| Load.CoveredGrows | seektam/db/loader.py:121-126 | a dish stored with its ingredients linked stays so as the store grows |
| Load.AddFoodStep | seektam/db/loader.py:123 | under the schema, add_food succeeds, keeps every row and leaves the food stored |
| Load.LinkStep | seektam/db/loader.py:125-126 | under the schema with the food stored, add_aliment then add_food_aliment succeed and leave the aliment stored and linked |
| Load.LinkAllCovers | seektam/db/loader.py:124-126 | the aliment loop never fails once the food is stored; it keeps the constraints and every row, and links each aliment to the food |
| Load.LoadFoodCovers | seektam/db/loader.py:122-126 | a turn fails iff food_to_model fails, and then changes nothing; otherwise the dish and every ingredient are stored and linked |
| Load.LoadAllCovers | seektam/db/loader.py:121-126 | the load keeps the constraints; after a load without error every dish is stored with each ingredient linked, and earlier rows are unchanged |
| Load.LinkAllUnchanged | seektam/db/loader.py:124-126 | the aliment loop over aliments already stored and linked changes nothing |
| Load.LoadFoodUnchanged | seektam/db/loader.py:122-126 | a dish already stored with its ingredients linked loads without change |
| Load.LoadAllUnchanged | seektam/db/loader.py:121-126 | a load of dishes that are all stored and linked inserts nothing; its `Ok` outcome is the model's (see Left out) |
| Load.LoadTwice | seektam/db/loader.py:121-126 | after a load without error, loading the same dishes again inserts no food, no aliment and no link; its `Ok` outcome is the model's (see Left out) |

## Left out

- HTTP requests, `urllib.urlencode` and HTML selection with lxml and CSS selectors. The model starts from the selected cell texts and hrefs; the form fields of a detail request are kept as a record.
- `requests` responses that are not pages. They are a single failed response, `TransportError`, rather than the library's exceptions.
- Generator laziness. `GetFoodList` runs the listing to its end. The trace keeps the order of requests and yields, so what a consumer stopping early would have seen is a prefix of it.
- `get_food_list` on an endless listing. The model requires a page that ends the listing (`last`), because the site's listing is finite.
- IEEE floating point. `float()` parses a decimal with an optional sign, one optional point and surrounding ASCII whitespace, into `real`. Exponents, `inf`, `nan`, underscores and Unicode whitespace are not modelled, and division is exact.
- Cells whose `.text` is `None` (empty HTML cells). Cells are strings.
- A dish anchor without an `href` attribute.
- `str.strip()` on non-ASCII whitespace.
- The ORM relationship between foods and aliments in seektam/model/koreafood.py. The loaders' `mfood.aliments` is kept as the model's aliment list, and no cascade is modelled.
- Session state after a failed commit, and rollback. The model treats the swallowed duplicate-link failure of add_food_aliment as leaving the link set as it was, and the session usable. In the program the session is left needing a rollback that nobody issues, so the next query (the next add_aliment, or the next dish's food_to_model) raises and ends the load. A repeated link happens on a second load of the same dishes, or when the listing repeats a dish name.
- Load.LoadTwice: its `Ok` outcome for the second load is the model's; the program stops at the query after the first repeated link. Only "no row is inserted" holds of the program.
- Load.LoadAllUnchanged: likewise, its `Ok` outcome is the model's; what holds of the program is that no row is inserted.
- Concurrency, and the `.one()` error `MultipleResultsFound`. The schema's unique names make that error impossible in the model.
- The `finally` clause of db/loader.py's food_to_model. When the `except` branch raises, the append it performs is lost with the exception. When `.one()` raises something else, the `finally` appends the previous key's aliment (or, on the first key, fails on the unbound `maliment`) before the exception propagates; with unique names this cannot happen.
- seektam/db/model.py, the model module the db loader imports, is not part of this model. Its tables are taken to be those of seektam/model/food.py, which has the same table names and the `FoodAlimentRelation` link class the loaders use.
- `columns.index(c)`: since neither column list repeats a name, it equals the column's position, and the model uses that position.
- Normalise.NewAliment: its own contract states only the record's kind and name; its meaning is stated by Normalise.NewAlimentMeaning.
- Logging, the `click` commands, `sess.merge` in seektam/crawl/loader.py:110-128, seektam/cli.py, seektam/config.py and setup.py.
- The crawl loader's add_model, add_food and add_aliment (seektam/crawl/loader.py:64-107). They do the same as the db loader's and are modelled once, in `Store` and `Database.Session`. Its add_food_aliment differs: it names a class its model module lacks, and is modelled separately as `Store.CrawlAddFoodAliment` (see Findings). The crawl loader's own command does not call these functions.

## Findings

| source | as written | input that shows it | evidently intended | confidence | as-written member | corrected member |
|---|---|---|---|---|---|---|
| seektam/crawl/loader.py:45-56 (and seektam/db/loader.py:43-53) | The column list names 16 nutrients and leaves out phosphorus, iron and sodium. Raw value j + 1 goes to the list's j-th column, so potassium gets the phosphorus value and every later column gets a value three places early. | The sample ingredient of tests/crawl/test_koreafood.py:133-137: weight 50, phosphorus 45.5, potassium 52.5. Potassium becomes 45.5/50; phosphorus, iron and sodium stay unset. | Each of the schema's 19 columns takes the raw value at its own position, so potassium is 52.5/50 and phosphorus 45.5/50. | not executed; moderate: the site's table has 19 nutrient values in the schema's order, but tests/crawl/test_loader.py:146-179 builds its input with the same 16-name list | Normalise.SampleAsWritten, Normalise.SourceColumnsMisread | Normalise.SampleCorrected, Normalise.SchemaColumnsKeepPositions |
| seektam/crawl/loader.py:80-93 | After both `.one()` lookups, add_food_aliment calls `food_model.FoodAlimentRelation()`, but seektam/model/koreafood.py defines the link only as the table `association_food_aliment_table` and no such class. The call raises AttributeError, so nothing is ever linked. | A stored food and a stored aliment, as in `Store.CrawlLinkExample`: the link table stays empty. | The pair of ids is inserted into the link table, as the db loader's add_food_aliment does. | not executed; high that the attribute is missing, since the module defines only the table, `Food` and `Aliment`; the crawl loader's own command does not call the function | Store.CrawlAddFoodAlimentNeverLinks, Store.CrawlLinkExample | Store.AddFoodAlimentOutcome |

The normalisers and the load lemmas take the column list as a parameter.
The load loop `Load.Loader` uses the loaders' list `SourceColumns`, as the
program does; every lemma about loading holds for either list.
