# brain.com.ua product-page extractors, modelled in Dafny

The repository scrapes one product page of the brain.com.ua shop and stores
what it reads in a Django `ProductInfo` table. Every script does the same job:
it reads the page into a `product_info` dict and then stores that dict.

- **The dict.** Six scalar fields (name, colour, built-in memory,
  manufacturer, SKU, reviews count), a regular and a sale price, the gallery
  image paths and the characteristics list of `(title, {name: value})` groups.
  The characteristics loop also promotes the screen diagonal and screen
  resolution rows to keys of their own.
- **The readers.** Three versions read the page:
  - BeautifulSoup: `modules/2_get_info.py`, plus the reduced draft in `main.py`;
  - Selenium: `modules/2_get_info_selenium.py` and `modules/3_get_info_selenium.py`;
  - Playwright: `modules/4_get_info_playwright.py`.
- **Storing.**
  - `modules/1_get_links.py` registers a link with status NEW.
  - The Selenium and Playwright scripts store the dict, either with
    `get_or_create(**data)` or with a new record and `save()`.

The page is abstract. A `Dom.Document` holds:

- the node each scalar selector matched, if any;
- the price spans and the slider images;
- the characteristics blocks, each with an optional `h3` and rows of `span`
  cells.

Selectors, XPath and the browsers stay outside the model. A Python exception
that escapes a script is an `Outcome.Raised`.

Modules:

- `Base`: strip, non-breaking spaces, the insertion-ordered dict.
- `Schema`: the `Status` choices and the `ProductInfo` columns.
- `Dom`: the page and the HTTP response.
- `Extraction`: the reading rules and the characteristics loops, as methods
  proved against recursive specification functions.
- `Characteristics`: what the characteristics list and the promoted keys are.
- `ProductPage`: the dict every script builds, and its properties.
- `StaticPage`, `Draft`, `SeleniumPage`, `PlaywrightPage`: each script's
  extractor, as a method equal to the shared specification. `Draft` also
  checks the selector strings `main.py` passes, which its engine refuses
  (see "## Findings").
- `Store`: the table as a class with `Save` and `GetOrCreate`, under a unique
  `link` invariant.
- `Persistence`: each script's way of storing the dict.

## Model

| member | source | states |
|---|---|---|
| Base.Strip | modules/2_get_info.py:67-69 | `str.strip()` as `lstrip` followed by `rstrip`; the three lemmas below state what it removes |
| Base.TrimStartRemovesSpacePrefix | modules/2_get_info.py:67-69 | the part of a text that `strip()` removes at the front is whitespace, and what remains starts with a non-whitespace character or is empty |
| Base.TrimEndRemovesSpaceSuffix | modules/2_get_info.py:67-69 | the part removed at the end is whitespace, and what remains ends with a non-whitespace character or is empty |
| Base.StripTrimsBothEnds | modules/2_get_info.py:67-69 | a stripped text neither starts nor ends with whitespace and holds only characters of the original; it is empty exactly when the original was all whitespace |
| Base.ReplaceNbsp | modules/3_get_info_selenium.py:189-193 | `.replace("\xa0", " ")` keeps the length, turns each non-breaking space into a plain space at the same position and keeps every other character; no non-breaking space is left |
| Base.Put | modules/3_get_info_selenium.py:199 | `items_dict[name] = value` maps the name to the value and leaves other names alone; a new name is appended last, and a known name keeps its place |
| Base.PutKeepsDistinct | modules/3_get_info_selenium.py:199 | a dict never lists a name twice |
| Schema.Code | braincomua_project/parser_app/models.py:5-8 | every status is stored as a two-character code |
| Schema.FromCode | braincomua_project/parser_app/models.py:5-8 | reading a code back gives the status stored under it; only NW, DE and FD are statuses |
| Schema.CodeRoundTrip | braincomua_project/parser_app/models.py:5-8 | each status survives being stored as its code, and no two statuses share a code |
| Schema.NewRecord | braincomua_project/parser_app/models.py:11-25 | a new `ProductInfo(link=url)` has every column, the given link, status NEW by default and NULL in every nullable column |
| Schema.NewRecordStorable | braincomua_project/parser_app/models.py:12-23 | a new record whose link fits 200 characters breaks no length limit and no NOT NULL constraint |
| Extraction.NodeText | modules/3_get_info_selenium.py:79-89 | a scalar read under the script's handler is None exactly when the selector matched nothing or the node has no text, and otherwise a string |
| Extraction.LocatorText | modules/4_get_info_playwright.py:75-81 | Playwright's read raises the locator error exactly when the selector matches nothing; otherwise it is the same read as the other scripts |
| Extraction.PriceAt | modules/2_get_info.py:117-129 | a price read raises exactly when the span exists but has no text, and raises AttributeError; it is None exactly when the span is missing |
| Extraction.SrcsOf | modules/2_get_info.py:158-162 | the value `images_srcs` holds after the loop, the reference that `Extraction.CollectSrcs` is proved against |
| Extraction.Title | modules/3_get_info_selenium.py:161-172 | a block's title read raises only with Playwright and only when the block has no `h3`; the block is skipped exactly when BeautifulSoup or Selenium find no `h3`, or the `h3` has no text |
| Extraction.CellValue | modules/3_get_info_selenium.py:187-193 | the value cell gives None exactly when BeautifulSoup finds no readable inner `<a>`, or a browser finds no text; a browser's value holds no non-breaking space |
| Extraction.ReadRow | modules/2_get_info.py:185-200 | reading a row raises exactly when it has fewer than two cells, and raises ValueError; the name is None exactly when the name cell has no text, and then the value is never read |
| Extraction.PromoteRow | modules/2_get_info.py:203-210 | the `finally` block of a row named after neither label changes no promoted key, and a promoted key once written stays written |
| Extraction.RowStep | modules/2_get_info.py:186-210 | one row: a row without a name changes nothing; a row whose value was not read leaves the dict as it was; a read value is stored under the row's name; a name that is neither label changes no promoted key |
| Extraction.ParseRows | modules/2_get_info.py:183-210 | the row loop of one block; the only exception that escapes it is ValueError |
| Extraction.ParseGroups | modules/2_get_info.py:173-213 | the block loop; what escapes it is a short row's ValueError or, with Playwright only, a missing `h3`'s locator error |
| Extraction.GroupStepAppends | modules/2_get_info.py:173-213 | one block: an untitled block is skipped with BeautifulSoup or Selenium; only ValueError or Playwright's locator error escapes; a titled block appends exactly one entry holding its title and keeps the earlier entries |
| Extraction.Promote | modules/2_get_info.py:203-210 | `product_info` gains exactly the promoted screen keys, each holding its promoted value |
| Extraction.WithCharacteristicsOutcome | modules/2_get_info.py:169-215 | the characteristics block raises exactly when the block loop does, and only ValueError or Playwright's locator error; a returned dict keeps every earlier key, adds `characteristics` and at most the two screen keys |
| Extraction.CollectSrcs | modules/2_get_info.py:154-162 | `images_srcs` has one entry per matched image, that image's `src`, in document order |
| Extraction.PromoteRowWrites | modules/2_get_info.py:203-210 | the `finally` block writes `screen_diagonal` or `screen_resolution` exactly when the row's name equals that label, and writes nothing otherwise |
| Extraction.ParseBlockRows | modules/2_get_info.py:183-210 | the row loop of one block gives exactly `ParseRows`: the ValueError of the first short row, or that block's `items_dict` and the promoted keys written so far |
| Extraction.ParseCharacteristics | modules/2_get_info.py:169-215 | the block loop leaves `product_info` as `WithCharacteristics` says: the parsed list under `characteristics` plus the promoted keys, or the exception that escaped |
| Characteristics.EntriesFollowTitledBlocks | modules/2_get_info.py:173-213 | the titles in the list are the titles of the titled blocks, in document order; an untitled block is skipped |
| Characteristics.EntriesHoldBlockItems | modules/3_get_info_selenium.py:159-210 | the list has one entry per titled block, and the j-th entry's dict holds the j-th titled block's stored names once each, in first-insertion order, each with its last value |
| Characteristics.EmptyTitledBlockKept | modules/2_get_info.py:183-213 | a titled block without rows is still appended, as `(title, {})` |
| Characteristics.ItemsInFirstInsertionOrder | modules/3_get_info_selenium.py:174-199 | the names in a block's dict are the names of its stored rows, in order of first appearance |
| Characteristics.ItemsHoldLastValues | modules/3_get_info_selenium.py:174-199 | each name in a block's dict maps to the value of the last row stored under that name |
| Characteristics.PromotedFromLastLabelledRow | modules/2_get_info.py:203-210 | `screen_diagonal` and `screen_resolution` come from the last parsed row, in any block, whose name is exactly the label; the key stays absent when there is no such row |
| Characteristics.UnreadValueStillPromotes | modules/2_get_info.py:191-210 | a row whose value cell has no inner `<a>` stays out of the dict, yet it promotes None and overwrites an earlier promoted value |
| Characteristics.RowsRaiseOnShortRow | modules/2_get_info.py:186-189 | the row loop raises exactly when a row has fewer than two `span` cells, and what it raises is a ValueError |
| Characteristics.ShortRowRaises | modules/2_get_info.py:174-217 | with BeautifulSoup or Selenium, or with Playwright when every block has an `h3`, the block loop raises exactly when a titled block holds a short row, and the ValueError is not caught |
| Characteristics.PlaywrightUntitledBlockRaises | modules/4_get_info_playwright.py:146-156 | with Playwright a block without `h3` makes the block loop raise: no handler in the loop catches the locator error, and an earlier short row raises first |
| Characteristics.PlaywrightFirstUntitledBlock | modules/4_get_info_playwright.py:144-199 | with Playwright the first block without `h3` ends the loop with the locator error, unless a titled block before it has a short row, which raises ValueError first |
| Characteristics.BrowserValueNormalised | modules/3_get_info_selenium.py:187-193 | in the browser scripts a characteristic name is its cell's text stripped, and the value is its cell's text with non-breaking spaces made plain, then stripped; no non-breaking space and no edge whitespace is left |
| ProductPage.ReadScalars | modules/3_get_info_selenium.py:91-107 | the six `save_text_value` calls, each reading its own node; `ProductPage.FieldsHoldEachField` and `ProductPage.TextFieldReadsItsNode` state that each field holds its node's read |
| ProductPage.Fields | modules/3_get_info_selenium.py:75-151 | the fields before the characteristics raise exactly when a Playwright scalar node is missing or one of the first two price spans has no text; otherwise they hold exactly the six scalars, the two prices and the images |
| ProductPage.FieldsHoldEachField | modules/3_get_info_selenium.py:91-151 | returned fields hold exactly the nine keys: each scalar the read of its node, the first two price spans, and the `src` list of the images |
| ProductPage.ProductData | modules/3_get_info_selenium.py:75-218 | the whole extraction raises only ValueError, AttributeError or, with Playwright, the locator error; a returned dict comes from returned fields and holds `characteristics` |
| ProductPage.AssembleHoldsEachField | modules/3_get_info_selenium.py:91-151 | before the characteristics, the dict holds exactly the six scalars, the two prices and the images, each under its own key |
| ProductPage.SoupOrderAssembles | modules/2_get_info.py:66-166 | writing the SKU and the reviews count after the prices, as the BeautifulSoup script does, gives the same dict as the browser scripts' order |
| ProductPage.TextFieldReadsItsNode | modules/3_get_info_selenium.py:79-107 | each scalar field holds the stripped text of its node; it is None exactly when the selector matched nothing or the node has no text; `reviews_count` stays a string |
| ProductPage.TextFieldsIndependent | modules/2_get_info.py:66-151 | with BeautifulSoup or Selenium, a field whose node disappears becomes None and no other key of the result changes |
| ProductPage.PlaywrightMissingNodeRaises | modules/4_get_info_playwright.py:75-81 | with Playwright a scalar selector that matches nothing is not turned into None: its error escapes `save_text_value` |
| ProductPage.PlaywrightTextlessNodeIsNone | modules/4_get_info_playwright.py:75-81 | with Playwright only a node without text content gives None |
| ProductPage.PriceSplit | modules/2_get_info.py:107-129 | the first price span is `price_regular` and the second `price_sale`, stripped; a missing span gives None |
| ProductPage.ExtraPricesIgnored | modules/2_get_info.py:107-129 | price spans after the second change nothing |
| ProductPage.TextlessPriceRaises | modules/3_get_info_selenium.py:117-135 | a price span whose text were None would raise an AttributeError that escapes, since only IndexError is handled; no library gives an element a None text (see "## Left out") |
| ProductPage.ImagesInDocumentOrder | modules/2_get_info.py:154-162 | `images` lists the `src` of every matched image, in document order; with no match it is the empty list, not None |
| ProductPage.ResultKeysAndPromotion | modules/2_get_info.py:63-215 | the result holds the ten extracted keys, and the screen keys exactly when a row carried their labels, with the last such row's value |
| ProductPage.ShortRowAborts | modules/2_get_info.py:169-225 | with BeautifulSoup or Selenium and readable prices, the extraction raises exactly when a titled block has a short row, and raises ValueError |
| StaticPage.GetProductData | modules/2_get_info.py:49-225 | a failed request or a 4xx/5xx status gives None and never a partial dict; otherwise the result is `ProductData(Soup, doc)`: the dict, or the exception that escaped it |
| Draft.DraftData | main.py:50-125 | taking each selector as a lookup, the draft raises exactly when one of the first two price spans has no text, and raises AttributeError |
| Draft.DraftIsFieldsWithoutImages | main.py:50-138 | given the same matched nodes, the draft raises exactly when the full BeautifulSoup fields raise, and otherwise returns those fields without `images`; the two scripts' selectors differ, so on a real page the matched nodes may differ |
| Draft.DraftKeysAndValues | main.py:50-138 | the draft's dict holds only the six scalars and the two prices; each scalar is the read of its matched node and the prices split as in the full extractor |
| Draft.DraftFieldsIndependent | main.py:53-86 | a scalar whose node disappears becomes None and nothing else changes |
| Draft.SelectText | main.py:53-58 | `select_one(sel).text.strip()` under `except AttributeError` raises the selector syntax error exactly when the engine refuses the selector, and otherwise reads the node |
| Draft.GetProductDataWith | main.py:36-142 | over any selector strings: a failed request or a 4xx/5xx status gives None; a refused selector among those read before the prices raises the selector syntax error; when every selector compiles the result is the draft's dict or its price error |
| Draft.WrittenSelectorsRejected | main.py:53-125 | the name selector compiles; the color and memory selectors leave `[` open and the reviews selector is `#` with no id, so all three are refused |
| Draft.ClosedSelectorsCompile | main.py:53-125 | with the two attribute selectors closed and the reviews selector of modules/2_get_info.py, every selector compiles |
| Draft.GetProductData | main.py:36-142 | as written: a failed request or a 4xx/5xx status gives None, and every fetched page raises the selector syntax error at the color read, so no dict is ever returned |
| Draft.GetProductDataClosed | main.py:36-142 | with the selectors closed: a failed request or an error status gives None, otherwise the draft's dict or its price error |
| Dom.RaisesForStatus | main.py:45 | `raise_for_status()` raises for 4xx and 5xx codes, as stated by `Draft.GetProductData` and `StaticPage.GetProductData` |
| Dom.FetchFails | main.py:140-142 | the `RequestException` handler covers an unreachable server and an error status; both give None in `Draft.GetProductData` and `StaticPage.GetProductData` |
| Dom.Rejected | main.py:64 | a selector with an open `[`, or a `#` outside every attribute selector and without a name, is refused by BeautifulSoup's CSS engine; a `#` in a quoted attribute value is not (`Dom.HashInAttributeValueCompiles`); `Dom.UnclosedAppend` and `Dom.ClosingBracketLast` state when `[` stays open |
| Dom.UnclosedAppend | main.py:64 | text without `]` after an open `[` leaves it open |
| Dom.ClosingBracketLast | modules/2_get_info.py:77-79 | a selector ending in `]` leaves no `[` open |
| SeleniumPage.ParseProductData | modules/3_get_info_selenium.py:75-218 | the Selenium reader returns exactly `ProductData(Selenium, doc)` for the rendered page: the dict or the exception that escapes |
| PlaywrightPage.ParseProductData | modules/4_get_info_playwright.py:69-201 | the Playwright reader returns exactly `ProductData(Playwright, doc)`: the dict or the exception, including the locator errors of missing scalars |
| Store.Filter | modules/3_get_info_selenium.py:226 | the lookup selects every row matching all keywords and no other row |
| Store.FilterTwoHits | modules/3_get_info_selenium.py:226 | two selected rows come from two different matching positions of the table |
| Store.FilterCountsMatches | modules/3_get_info_selenium.py:226 | two matching positions give two selected rows, even when the two rows are equal |
| Store.Find | modules/3_get_info_selenium.py:226 | `get(**kwargs)` finds nothing exactly when no row matches; it finds one row exactly when one position matches, and that row matches every keyword; it reports several (`MultipleObjectsReturned`) exactly when two positions match |
| Store.Insert | braincomua_project/parser_app/models.py:11-25 | `save()` of a new instance raises exactly when a value does not fit its column, `link` or `status` is NULL, or the link is stored; a value that does not fit is a data error and is reported first, the others are integrity errors; a successful save appends exactly the row stamped with the call's time |
| Store.FindOrCreate | modules/3_get_info_selenium.py:226 | `get_or_create` leaves the table as it was or appends exactly the row it returns as created; a keyword that names no column raises a field error |
| Store.CreateStep | modules/3_get_info_selenium.py:226 | the create half of `get_or_create` raises exactly when the INSERT is refused, with a data or integrity error and the table unchanged; otherwise it returns the new row as created and appends exactly it |
| Store.CreateStepAppends | modules/3_get_info_selenium.py:226 | the create half either raises with the table unchanged or appends exactly the created row |
| Store.GetOrCreateFinds | modules/3_get_info_selenium.py:226 | when the lookup finds something nothing is created: one match is returned as not created, several raise `MultipleObjectsReturned` |
| Store.AppendedRowFound | modules/1_get_links.py:10-15 | a row appended where nothing matched is what the next `get_or_create` with the same keywords returns |
| Store.Created | braincomua_project/parser_app/models.py:11-25 | the instance `get_or_create` builds has every column |
| Store.StoredRowFitsColumns | braincomua_project/parser_app/models.py:12-25 | every stored row has all columns, a link and a status, values within each column's `max_length` and image paths within 255 characters |
| Store.InsertKeepsInvariant | braincomua_project/parser_app/models.py:12 | a successful INSERT appends the new row and keeps every row well formed and every link unique |
| Store.SecondInsertOfLinkFails | braincomua_project/parser_app/models.py:12 | saving a second record with a stored link raises an integrity error |
| Store.FilterByLinkAtMostOne | braincomua_project/parser_app/models.py:12 | under unique links, a lookup that names the link selects at most one row |
| Store.LinkKeywordNeverFindsSeveral | modules/3_get_info_selenium.py:221-226 | `get_or_create` with a `link` keyword never raises `MultipleObjectsReturned` |
| Store.CreatedHoldsKeywords | braincomua_project/parser_app/models.py:11-25 | the created record holds every keyword, and the model defaults in every other column |
| Store.CreatedStorable | braincomua_project/parser_app/models.py:12-23 | keywords that fit their columns and name a link and a status give a record the table accepts |
| Store.NewLinkIsCreated | modules/1_get_links.py:10-15 | with fitting keywords and a link the table does not hold, `get_or_create` creates and appends the row |
| Store.GetOrCreateOutcome | modules/3_get_info_selenium.py:226 | `get_or_create` returns a row matching the keywords: a stored row with the table unchanged, or a created one appended with both stamps at the call's time; when it raises, the table is unchanged |
| Store.GetOrCreateOnlyAppends | braincomua_project/parser_app/models.py:24-25 | no stored row or creation stamp ever changes; at most one row is appended |
| Store.GetOrCreateIdempotent | modules/1_get_links.py:10-15 | running `get_or_create` again with the same keywords returns the first call's row and creates nothing |
| Store.StoredLinkWithOtherValuesRaises | modules/3_get_info_selenium.py:221-226 | a stored link whose row differs in another column is not found; creating a second row for it raises and leaves the stored row as it was |
| Store.ProductTable.Save | modules/2_get_info_selenium.py:219-220 | `save()` of a new instance either appends it with both stamps at the call's time or raises and leaves the table as it was; the invariant holds |
| Store.ProductTable.GetOrCreate | modules/3_get_info_selenium.py:226 | the method computes `get_or_create`'s result and the new table, and keeps the invariant |
| Persistence.RegisterKwargs | modules/1_get_links.py:10-15 | the registration keywords name only columns, among them `link` and `status` |
| Persistence.SaveKwargs | modules/3_get_info_selenium.py:221-224 | the dict after `save_to_db`'s two writes: its own keys plus `link` and `status`, the current URL and DONE in those two, every other value unchanged |
| Persistence.SaveToDb | modules/3_get_info_selenium.py:221-226 | `save_to_db` writes the current URL and status DONE into the caller's dict and calls `get_or_create` with it; the method returns that updated dict and the call's outcome and table |
| Persistence.PromotedKeyBlocksSave | modules/3_get_info_selenium.py:221-226 | a page with a screen diagonal or resolution row makes `save_to_db` raise a field error before any query |
| Persistence.FirstSaveStoresPage | modules/4_get_info_playwright.py:232-237 | a page without promoted keys, with fitting values and a new link, is stored as a new row: the URL, status DONE and every field of the dict |
| Persistence.RegisteredLinkNotAdvanced | modules/3_get_info_selenium.py:221-226 | a link registered as NEW is not advanced to DONE: `save_to_db` raises and the NEW row stays |
| Persistence.RegisterThenSaveRaises | modules/1_get_links.py:10-15 | registering a new link succeeds, and saving the parsed page for that link afterwards raises with the NEW row kept |
| Persistence.Record | modules/2_get_info_selenium.py:215-219 | the record the script saves has exactly the table's columns |
| Persistence.RecordHoldsPage | modules/2_get_info_selenium.py:215-219 | the record saved holds the URL, status DONE and every column the dict names; other columns are NULL; the screen keys are not stored |
| Persistence.BuildRecord | modules/2_get_info_selenium.py:215-219 | the `setattr` loop and the status assignment produce exactly that record |
| Persistence.SaveRecord | modules/2_get_info_selenium.py:215-225 | `prod.save()` and the script's return: the dict with the record appended, or a data or integrity error with the table unchanged |
| Persistence.SaveNewRecord | modules/2_get_info_selenium.py:215-220 | the record is saved with a plain INSERT, and the dict or the INSERT's exception is the result |
| Persistence.FirstRunStoresRecord | modules/2_get_info_selenium.py:215-225 | on a table without the link, with fitting values, the dict is returned and stored as one new row |
| Persistence.SecondRunCollides | modules/2_get_info_selenium.py:215-220 | running the script again for a stored page raises an integrity error and stores nothing |
| Persistence.ParseAndSave | modules/2_get_info_selenium.py:65-225 | the script returns the dict it stored; an exception from reading or from `save` propagates, and the table changes only by the saved row |

## Left out

- Browser and HTTP choreography are not modelled. This covers opening the
  page, typing the search, clicking the first result, the waits and sleeps,
  driver set-up, and the session's headers, cookies and timeouts. The fetched
  or rendered page is a parameter, and the fetch is reduced to a response
  that either fails or carries a status and a page.
- Selector and XPath evaluation are not modelled. Each selector is an opaque
  lookup: a single node or none for a scalar field, a sequence for the prices,
  the images and the blocks. This includes:
  - the first-match `[1]` of the Playwright SKU and reviews selectors.

  The one exception is the syntax check of the selectors `main.py` passes
  (`Dom.Rejected`).
- Dom.Rejected: of the selector grammar BeautifulSoup's engine enforces, only
  an unclosed `[` and a `#` without a name outside attribute selectors are
  modelled; every other selector is taken to compile. Quoted strings and
  escapes are not parsed: a `]` inside a quoted attribute value is taken to
  close the bracket, and a `#` in a quoted pseudo-class argument (such as
  `:-soup-contains("#")`) is judged as if it were bare, so that selector is
  wrongly refused.
- Draft.DraftData: the dict it states is what `main.py` returns once its
  selectors compile (`Draft.GetProductDataClosed`); as written, `main.py`
  never returns it (`Draft.GetProductData`).
- Library behaviour is not modelled. Playwright's strict mode on a locator
  matching several nodes and its auto-wait are reduced to "a missing node
  raises".
- Selenium's `src` attribute is taken as the page's own value, not the
  resolved absolute URL.
- An element's text is never None: BeautifulSoup's `.text`, Selenium's
  `get_attribute("textContent")` and Playwright's `text_content()` all give a
  string, empty for an element without text. The model's "node without text"
  branches therefore arise in no script; they state what each handler would
  do with a None text, and the model does not promise that they happen.
- `str.strip` uses the set of characters Python's `str.isspace` accepts. The
  model does no other Unicode processing.
- The order of the keys of `product_info` itself is not modelled: the dict is a
  map. The order inside each characteristics group is modelled.
- Django internals are reduced to the table's constraints:
  - the length limits and a too-long value's data error;
  - NOT NULL on `link` and `status`;
  - the unique `link` and its integrity error;
  - a keyword that names no column raising a field error.

  Left out: the serialisation of `ArrayField` and `JSONField`, and model
  validation.
- Store.FindOrCreate, Store.Insert: `reviews_count` is an `IntegerField`, but
  the dict holds it as a string. Django converts it with `int()` when it
  builds `get_or_create`'s lookup and again on `save()`. A count that is not
  an integer literal raises ValueError there, before any query. The
  keywords are resolved in name order, so this comes before the field error
  of a screen key. The model treats every string as a valid count and does not
  raise this ValueError. It also leaves out the database's integer range and
  the matching of `"07"` against a stored 7.
- Store.FindOrCreate: with no other writer, the second lookup that Django's
  `get_or_create` makes after an integrity error finds nothing, so the error is
  re-raised. Concurrent writers, the only way that lookup could succeed, are
  not modelled.
- The clock is a parameter (`now`). No script updates a stored row, so
  `updated_at` is refreshed only at creation.
- `Status.FAILED` is modelled as a choice, but no script ever sets it.
- Persistence.SaveToDb: the dict is a value, so the in-place writes of
  `data["link"]` and `data["status"]` are returned as `updated` rather than
  shared with the caller; neither script reads the dict afterwards.
- The human-readable labels of the `Status` choices ("New", "Done", "Failed")
  are display text and are not modelled; only the stored codes are.
- Printing and logging of errors are left out.
- `modules/load_django.py` (environment set-up) is not part of this model.

## Findings

| source | as written | input that shows it | evidently intended | confidence | as-written member | corrected member |
|---|---|---|---|---|---|---|
| main.py:64 | the color selector `a[title^='Колір'` and the memory selector at line 73 never close `[` | any page fetched with status 200: the color read raises a selector syntax error, and no dict is returned | `a[title^='Колір']` and `a[title^='Вбудована пам']`, as in modules/2_get_info.py:78 and :88 | not executed | Draft.GetProductData | Draft.GetProductDataClosed |
| main.py:124 | the reviews selector is `##`, an id selector with no id | the same page, were the read reached | `.reviews-count span`, as in modules/2_get_info.py:145 | not executed | Draft.WrittenSelectorsRejected | Draft.ClosedSelectorsCompile |

## Behaviour of note

- `save_to_db` never advances a link that `modules/1_get_links.py` registered
  as NEW. `get_or_create(**data)` looks rows up by every field, not only by
  the link, so the NEW row does not match. The create then collides with the
  unique link and raises, and the NEW row stays as it was
  (`Persistence.RegisteredLinkNotAdvanced`,
  `Persistence.RegisterThenSaveRaises`).
- A page with a screen diagonal or resolution row passes `screen_diagonal` or
  `screen_resolution` as keywords. These name no column, and the call raises a
  field error (`Persistence.PromotedKeyBlocksSave`).
- `modules/2_get_info_selenium.py` saves a new record each time, so a second
  run for the same page raises an integrity error
  (`Persistence.SecondRunCollides`).
- Errors that end the whole extraction, script by script:
  - `modules/2_get_info.py`: a characteristics row with fewer than two cells
    raises ValueError. A price span's `.text` is never None in BeautifulSoup,
    so its AttributeError cannot arise there.
  - `main.py`: every fetched page raises a selector syntax error. The color
    selector at line 64 never closes its `[`, BeautifulSoup compiles it
    before searching, and only `AttributeError` and `RequestException` are
    handled. With the selectors closed it would raise nothing: it has no
    characteristics loop, and its price spans always have text.
  - `modules/2_get_info_selenium.py` and `modules/3_get_info_selenium.py`: a
    short characteristics row raises ValueError. A price span's
    `textContent` is a string, so the price AttributeError cannot arise
    there either.
  - `modules/4_get_info_playwright.py`: the same ValueError, plus the locator
    error of a scalar field or a block `h3` that matches nothing
    (`Characteristics.PlaywrightFirstUntitledBlock`). An element's
    `text_content()` is a string, so the price AttributeError cannot arise.
- Nothing sets FAILED.
