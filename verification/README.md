# ListerBundle core in Dafny

A model of the core of the Symfony bundle `dszczer/lister` (ListerBundle): a
`Lister` holds a Propel query, a bag of filters, a bag of sorters and a bag of
elements (the columns of a row), a page size and a current page, and a few
presentation settings. A request moves its filters, sorters and page;
`apply` runs the filters and sorters on the query, pages the result with
`PagerHelper` and stores the serialized lister in the session, from which
`getFromSession` and `removeFromSession` read it back.

The project has one module per class of the bundle:

- `Values` (`values.dfy`): the PHP values the bundle stores. It also holds the PHP 7 operations the source relies on: `empty()`, loose `==` against a word, `intval` and string conversion.
- `Helper` (`helper.dfy`): `Helper::camelize` and `Helper::fixTwigTemplatePath`. Each has a reference definition: a one-pass camelizer, and the segment-by-segment reading of the path: split it at every ':', delete "Bundle" from each segment, join the segments with '/'.
- `Bags` (`bag.dfy`): `Util\Bag`, an ordered array with an instance validator.
- `Queries` (`query.dfy`): the ORM query, reduced to the methods it offers and the calls made on it.
- `Filters`, `Sorters`, `Elements`: `Filter`, `Sorter` and `Element`.
- `Pagers` (`pager.dfy`): `PagerHelper`, reduced to its page arithmetic over a sequence of rows.
- `Listers` (`lister.dfy`): the `Lister` state, the constructor, the setters, the bag accessors, `addField` and hydration.
- `Snapshots` (`snapshot.dfy`): `serialize`, `unserialize` and the session store.
- `Requests` (`request.dfy`): `handleRequest` and `apply`.
- `Wrappers` and `Errors`: `Option`, `Result`, `Effect` (a state together with the exception raised after it was reached) and the exceptions.

PHP code that throws after it has changed the object is modelled by `Effect`. Examples are `unserialize`, `addField`, `apply` and `setType`. Each such operation returns the state it left and the error it raised, so that the "no rollback" behaviour can be stated. Constructors that throw before an object exists return a `Result`.

Source paths below are relative to the repository root. `Lister.php` is `src/Dszczer/ListerBundle/Lister/Lister.php`.

## Model

| member | source | states |
|---|---|---|
| Values.LooseEqualsWord | src/Dszczer/ListerBundle/Sorter/Sorter.php:156 | PHP 7 loose `==` against a word of letters: a string equals it only when identical, while null, arrays and objects never do |
| Values.LooseEqualsWordExamples | src/Dszczer/ListerBundle/Sorter/Sorter.php:156 | under PHP 7, `0` and `true` count as a direction while "asc" and 5 do not |
| Values.IntVal | src/Dszczer/ListerBundle/Lister/Lister.php:997 | `intval` always lies in the 64-bit range; it is the decimal reading of the text when that fits, and saturates at `PHP_INT_MAX` or `PHP_INT_MIN` otherwise |
| Values.IntValOfIntToString | src/Dszczer/ListerBundle/Lister/Lister.php:997 | `intval` reads the decimal form of any 64-bit integer back as that integer; beyond that range it saturates |
| Values.ScalarString | src/Dszczer/ListerBundle/Lister/Lister.php:1035-1036 | only arrays and objects lack a string form, and a string is its own string form |
| Helper.Camelize | src/Dszczer/ListerBundle/Util/Helper.php:55-58 | a camelized string never starts with an upper-case letter |
| Helper.CamelizeIsCamelPass | src/Dszczer/ListerBundle/Util/Helper.php:55-58 | the str_replace/ucwords/str_replace/lcfirst pipeline equals an independent one-pass definition: skip each separator or space and upper-case the next character, then lower the first; this holds for any separator that is not a letter |
| Helper.CamelizeHasNoBreaks | src/Dszczer/ListerBundle/Util/Helper.php:55-58 | the output holds neither the separator nor a space |
| Helper.CamelizeUppercasesAfterBreak | src/Dszczer/ListerBundle/Util/Helper.php:55-58 | every character after a separator or space comes out upper-cased, unless it becomes the first output character |
| Helper.CamelizeFixpoint | src/Dszczer/ListerBundle/Util/Helper.php:55-58 | camelize leaves a string unchanged if and only if it has no separator, no space and no leading capital |
| Helper.CamelizeLetterSeparatorExample | src/Dszczer/ListerBundle/Util/Helper.php:55-58 | with a letter as separator, `lcfirst` can bring the separator back into the output |
| Helper.CamelizeTwoWords | src/Dszczer/ListerBundle/Util/Helper.php:55-58 | two separator-joined words become the first with a lowered initial followed by the second capitalised |
| Helper.CamelizeThreeWords | src/Dszczer/ListerBundle/Util/Helper.php:55-58 | the same for three words |
| Helper.CamelizeOneWordPrefix | src/Dszczer/ListerBundle/Util/Helper.php:55-58 | a word, the separator and a name: the word is kept and the name follows with each of its words capitalised |
| Helper.CamelizeTwoWordPrefix | src/Dszczer/ListerBundle/Util/Helper.php:55-58 | the same with a two-word prefix such as `filter_by_` |
| Helper.CamelizeTestUnderscore | tests/Dszczer/ListerBundle/Util/HelperTest.php:25 | "some_underscore_string" camelizes to "someUnderscoreString" |
| Helper.CamelizeTestDash | tests/Dszczer/ListerBundle/Util/HelperTest.php:26 | "This-is_malformedString" with '-' gives "thisIs_malformedString" |
| Helper.CamelizeTestUnderscoreOnDashed | tests/Dszczer/ListerBundle/Util/HelperTest.php:27 | "This-is_malformedString" with '_' gives "this-isMalformedString" |
| Helper.CamelizeTestUnchanged | tests/Dszczer/ListerBundle/Util/HelperTest.php:28 | "thisShouldNotBeChanged" is a fixpoint |
| Helper.FixTwigHasNoColon | src/Dszczer/ListerBundle/Util/Helper.php:65-68 | a fixed template path holds no ':' |
| Helper.FixTwigFixpoint | src/Dszczer/ListerBundle/Util/Helper.php:65-68 | a path is left unchanged if and only if it holds neither ':' nor "Bundle" |
| Helper.FixTwigSegments | src/Dszczer/ListerBundle/Util/Helper.php:65-68 | for any list of colon-free segments, fixing their ':'-join gives the '/'-join of the segments, each without its "Bundle"s |
| Helper.FixTwigPathSegments | src/Dszczer/ListerBundle/Util/Helper.php:65-68 | any path is fixed segment by segment: its ':'-separated segments each lose their "Bundle"s and are joined by '/' |
| Helper.FixTwigNotIdempotent | src/Dszczer/ListerBundle/Util/Helper.php:65-68 | the fix is not idempotent: "BunBundledle" becomes "Bundle", which a second call deletes |
| Helper.FixTwigTest | tests/Dszczer/ListerBundle/Util/HelperTest.php:33-36 | "FooBarBundle:Static:twigTemplate.html.twig" becomes "FooBar/Static/twigTemplate.html.twig" |
| Helper.FixTwigTestAgain | tests/Dszczer/ListerBundle/Util/HelperTest.php:37 | the fixed path is left as it is |
| Helper.RemoveCharLength | src/Dszczer/ListerBundle/Util/Helper.php:57 | removing a character shortens the string exactly when it occurs |
| Helper.ReplaceCharIdentity | src/Dszczer/ListerBundle/Util/Helper.php:57 | a one-character replacement changes the string if and only if the character occurs and differs from its replacement |
| Helper.ReplaceCharBack | src/Dszczer/ListerBundle/Lister/Lister.php:1040-1042 | replacing `x` by `y` and then `y` by `x` maps every `y` of the input to `x` |
| Bags.NewBag | src/Dszczer/ListerBundle/Util/Bag.php:31-35 | construction succeeds exactly when every value passes validation, and the bag then iterates as the given array |
| Bags.Items | src/Dszczer/ListerBundle/Util/Bag.php:41-44 | `all()` has one entry per key |
| Bags.HasIffKey | src/Dszczer/ListerBundle/Util/Bag.php:103-106 | `has` agrees with `keys()` and with the iterated entries |
| Bags.CountAndItems | src/Dszczer/ListerBundle/Util/Bag.php:130-133 | `count()` is the number of keys and of entries, and each entry pairs a key with its value |
| Bags.GetPresentOrDefault | src/Dszczer/ListerBundle/Util/Bag.php:82-85 | `get` gives the stored value of a present key, whatever it is, and the default for an absent one |
| Bags.Set | src/Dszczer/ListerBundle/Util/Bag.php:92-96 | `set` succeeds exactly when the value passes validation, and then stores it |
| Bags.PutSpec | src/Dszczer/ListerBundle/Util/Bag.php:92-96 | after storing, the key maps to the value; an existing key keeps its place and the count, a new key is appended, and all other entries are kept |
| Bags.RemoveSpec | src/Dszczer/ListerBundle/Util/Bag.php:112-115 | `remove` deletes that key only and keeps the order of the rest |
| Bags.RemoveAbsent | src/Dszczer/ListerBundle/Util/Bag.php:112-115 | removing an absent key changes nothing |
| Bags.Replace | src/Dszczer/ListerBundle/Util/Bag.php:59-63 | `replace` succeeds exactly when every value passes validation, and keeps the validator |
| Bags.ReplaceSpec | src/Dszczer/ListerBundle/Util/Bag.php:59-63 | after a successful `replace` the contents are exactly the given array: no earlier key survives unless the array holds it |
| Bags.Add | src/Dszczer/ListerBundle/Util/Bag.php:69-73 | `add` succeeds exactly when every value passes validation, and then merges as `array_replace` |
| Bags.PutAllSpec | src/Dszczer/ListerBundle/Util/Bag.php:69-73 | `array_replace`: present keys keep their position and take the new value, new keys are appended in order, and other entries are untouched |
| Bags.PutAllValues | src/Dszczer/ListerBundle/Util/Bag.php:69-73 | after `add` each added key reads its added value, and every other key reads as before |
| Bags.SetInstanceValidator | src/Dszczer/ListerBundle/Util/Bag.php:148-151 | a new validator is stored without rechecking or changing the contents |
| Bags.MapEntriesSpec | src/Dszczer/ListerBundle/Lister/Lister.php:951-960 | updating the stored objects in place keeps the keys and their order, and changes each entry only by the update |
| Queries.Invoke | src/Dszczer/ListerBundle/Filter/Filter.php:284 | a call on the query adds exactly that call after the earlier ones, and the query's methods are unchanged |
| Queries.Clear | src/Dszczer/ListerBundle/Lister/Lister.php:1026 | clearing drops every recorded condition and keeps the methods |
| Filters.NewFilter | src/Dszczer/ListerBundle/Filter/Filter.php:55-78 | construction fails exactly on a type outside the five known types, and the method is derived exactly when none is given and the name is non-empty |
| Filters.KnownTypeOfStrings | src/Dszczer/ListerBundle/Filter/Filter.php:126-131 | the check admits exactly the five type names among strings, and under PHP 7 `true` and `0` as well |
| Filters.UnknownTypeRejected | src/Dszczer/ListerBundle/Filter/Filter.php:114-120 | an unknown type is refused by both the constructor and `setType` |
| Filters.SetType | src/Dszczer/ListerBundle/Filter/Filter.php:114-120 | the type is stored even when it is then refused |
| Filters.RawTypeIsStored | src/Dszczer/ListerBundle/Filter/Filter.php:105 | `getType(false)` returns the type as set |
| Filters.NewFilterMethod | src/Dszczer/ListerBundle/Filter/Filter.php:72-77 | a given method is kept and marks the filter non-default; otherwise the method is derived from the name: "filterBy" followed by the name with each word capitalised |
| Filters.ResolvedTypeTable | src/Dszczer/ListerBundle/Filter/Filter.php:85-103 | the form type is a choice exactly for select, multi, or checkbox/radio with choices; checkbox or radio without choices; text otherwise |
| Filters.SetFilterMethod | src/Dszczer/ListerBundle/Filter/Filter.php:231-237 | setting a method stores it, clears the default flag and changes nothing else |
| Filters.Apply | src/Dszczer/ListerBundle/Filter/Filter.php:255-285 | `apply` fails exactly when a choice filter has no choices, there is no query, or the query lacks the method, and raises the matching error, in that order of checks (missing choices even without a query); otherwise a null value leaves the query alone and any other value adds exactly one call, of the filter method with the value and then the extra arguments |
| Sorters.NewSorter | src/Dszczer/ListerBundle/Sorter/Sorter.php:39-51 | the method is derived exactly when none is given and the name is non-empty |
| Sorters.NewSorterMethod | src/Dszczer/ListerBundle/Sorter/Sorter.php:45-50 | a given method is kept and marks the sorter non-default; otherwise the method is derived from the name: "orderBy" followed by the name with each word capitalised |
| Sorters.NewSorterDefaults | src/Dszczer/ListerBundle/Sorter/Sorter.php:39 | a sorter built without arguments has empty strings, no value and no default method |
| Sorters.SetSorterMethod | src/Dszczer/ListerBundle/Sorter/Sorter.php:130-136 | setting a method stores it, clears the default flag and changes nothing else |
| Sorters.DirectionValues | src/Dszczer/ListerBundle/Sorter/Sorter.php:156 | among strings only "ASC" and "DESC" are directions, `true` and `0` are too under PHP 7, while null, false and "" are not |
| Sorters.Apply | src/Dszczer/ListerBundle/Sorter/Sorter.php:154-169 | without a direction nothing happens; with one and no query it raises; with a query it adds one call of the sorter method with the direction first |
| Sorters.ApplyWithoutDirection | src/Dszczer/ListerBundle/Sorter/Sorter.php:168 | without a direction the query is not looked at, whether or not there is one |
| Sorters.ApplyWithDirection | src/Dszczer/ListerBundle/Sorter/Sorter.php:156-166 | with a direction, a missing query raises, and otherwise the earlier calls are kept and exactly one is added |
| Elements.NewElement | src/Dszczer/ListerBundle/Element/Element.php:41-60 | the element is custom exactly when the callable is callable, and the getter is derived exactly when no method is given, the name is non-empty and the element is not custom |
| Elements.DefaultElementMethodExample | src/Dszczer/ListerBundle/Element/Element.php:55 | an element named "myName" reads its data with "getMyName" |
| Elements.NewElementMethod | src/Dszczer/ListerBundle/Element/Element.php:54-59 | a given method, an empty name or a custom callable keeps the given method and marks the element non-default; otherwise the getter is derived from the name: "get" followed by the name with each word capitalised |
| Elements.GetData | src/Dszczer/ListerBundle/Element/Element.php:68-91 | raw data is the stored data; otherwise the custom callable, then an object's getter, decides, a throwing call fails, and a non-object is returned as it is |
| Elements.GetDataSources | src/Dszczer/ListerBundle/Element/Element.php:70-88 | the custom callable wins over the getter, the getter applies only to objects, and each throwing call raises ElementException |
| Elements.SetDataThenGetRaw | src/Dszczer/ListerBundle/Element/Element.php:98-103 | data set is read back raw |
| Elements.SetMethod | src/Dszczer/ListerBundle/Element/Element.php:161-167 | setting a method stores it, clears the default flag and changes nothing else |
| Elements.SetCustom | src/Dszczer/ListerBundle/Element/Element.php:195-200 | the custom flag is on exactly when asked for and the callable is callable, and nothing else changes |
| Elements.SetCustomNeedsCallable | src/Dszczer/ListerBundle/Element/Element.php:195-200 | switching custom on succeeds only for a callable, and switching it off always succeeds |
| Pagers.CeilDivBounds | src/Dszczer/ListerBundle/Lister/PagerHelper.php:138 | `(int)ceil(a / b)` is the least multiple count covering `a` |
| Pagers.SetMaxPerPageSpec | src/Dszczer/ListerBundle/Lister/PagerHelper.php:439-457 | a positive maximum is stored and page 0 lifted to 1; 0 disables paging at page 0; a negative one reads as 1; the maximum is never negative afterwards |
| Pagers.SetPageSpec | src/Dszczer/ListerBundle/Lister/PagerHelper.php:392-401 | the page is stored unless it is non-positive while there are results, when it becomes the first page |
| Pagers.SetLastPageSpec | src/Dszczer/ListerBundle/Lister/PagerHelper.php:366-374 | the last page is stored and a page beyond it is pulled back to it |
| Pagers.NewPagerState | src/Dszczer/ListerBundle/Lister/PagerHelper.php:61-71 | a new pager is on page 1 of 1 with no results and no record limit |
| Pagers.InitUnpaged | src/Dszczer/ListerBundle/Lister/PagerHelper.php:135-136 | with page 0 or maximum 0 there is no last page and every row is returned |
| Pagers.InitPaged | src/Dszczer/ListerBundle/Lister/PagerHelper.php:125-169 | with paging on, the last page is `ceil(n / max)`, the page is clamped to it, and the results are exactly that page's slice of the rows; with no rows everything is 0 |
| Pagers.InitRecordLimit | src/Dszczer/ListerBundle/Lister/PagerHelper.php:147-161 | with a record limit `cap` only `min(rows, cap)` results are counted and the last page is computed over them; a page's limit is `min(maxPerPage, cap - offset)`, so the rows returned are the page's slice of the first `min(rows, cap)` rows |
| Pagers.IndicesMatchResults | src/Dszczer/ListerBundle/Lister/PagerHelper.php:268-294 | the first and last index bracket exactly the rows returned for the page |
| Pagers.HaveToPaginateIff | src/Dszczer/ListerBundle/Lister/PagerHelper.php:257-260 | paging is needed if and only if there is a maximum and the rows do not fit on one page |
| Pagers.NextPreviousWithinPages | src/Dszczer/ListerBundle/Lister/PagerHelper.php:408-421 | next and previous stay between the first and last page and step back to each other |
| Pagers.GetLinks | src/Dszczer/ListerBundle/Lister/PagerHelper.php:234-250 | the links are consecutive pages inside 1..last, at most `nbLinks` of them, and the current max link is the last one (1 when none) |
| Pagers.LinksCoverPage | src/Dszczer/ListerBundle/Lister/PagerHelper.php:237-245 | the link window holds the current page and is full whenever there are enough pages |
| Pagers.PagesPartitionRows | src/Dszczer/ListerBundle/Lister/PagerHelper.php:135-169 | reading pages 1 to last in order gives every row exactly once, in order |
| Pagers.FiveRowsFourPerPage | tests/Dszczer/ListerBundle/Lister/PagerHelperTest.php:77-87 | five rows at four per page make two pages of four and one row, and a page past the end gives the last page |
| Pagers.NoRows | tests/Dszczer/ListerBundle/Lister/PagerHelperTest.php:257-264 | with no rows, the result count, the page, the first page and the last page are all 0 |
| Listers.NewLister | src/Dszczer/ListerBundle/Lister/Lister.php:89-109 | construction fails exactly for a model class that is not a query class; without an id the lister gets the generated id and does not persist; the bags start empty |
| Listers.ConstructorIdRule | src/Dszczer/ListerBundle/Lister/Lister.php:103-108 | the lister persists if and only if it is given an id, keeps that id or else takes the generated one, and starts on page 1 with the default options |
| Listers.SetPerPage | src/Dszczer/ListerBundle/Lister/Lister.php:247-252 | the page size is never negative: a negative count reads as 0, anything else is stored, and nothing else changes |
| Listers.LayoutPaths | src/Dszczer/ListerBundle/Lister/Lister.php:586-589 | raw layouts are the stored path; fixed ones hold no ':', and equal the stored path exactly when it has no ':' and no "Bundle" |
| Listers.AddNamedSpec | src/Dszczer/ListerBundle/Lister/Lister.php:398-405 | adding without overwrite keeps an item already stored under the name; otherwise the item is stored, in place or at the end, and nothing else changes |
| Listers.MergeNamedKeeps | src/Dszczer/ListerBundle/Lister/Lister.php:378-390 | merging by name never changes an entry already present, and afterwards every merged name is present |
| Listers.AssignAllSpec | src/Dszczer/ListerBundle/Lister/Lister.php:378-390 | with overwrite the contents become exactly the other bag's; without it, present entries stay and the other names are brought in |
| Listers.RemoveByName | src/Dszczer/ListerBundle/Lister/Lister.php:422-427 | removing by name deletes only that entry, after which it is not found |
| Listers.AddFieldPartsSpec | src/Dszczer/ListerBundle/Lister/Lister.php:327-351 | the element is always added and the sorter exactly when sorting is asked for; the filter is added exactly when it is constructed. None of them overwrites: an item already stored under the name stays. A refused filter raises after the others are in, whether or not the name was present, and no other name changes |
| Listers.AddFieldFanOut | src/Dszczer/ListerBundle/Lister/Lister.php:327-351 | the name holds a filter afterwards exactly when it held one or the type is truthy and known, and stored items stay; an unknown truthy type raises, whether or not the name was present, with the element and the sorter already added |
| Listers.HydrateRowSpec | src/Dszczer/ListerBundle/Lister/Lister.php:1074-1095 | a hydrated row is a copy of each element in order with the row as its data, and otherwise unchanged |
| Listers.HydratePageSpec | src/Dszczer/ListerBundle/Lister/Lister.php:1067-1073 | the hydrated page has one hydrated row per result of the current page, in order |
| Snapshots.FieldOrderComplete | src/Dszczer/ListerBundle/Lister/Lister.php:1101-1121 | every serialized field is checked exactly once |
| Snapshots.ProjectWrite | src/Dszczer/ListerBundle/Lister/Lister.php:1128-1229 | writing one field changes that field only |
| Snapshots.ReadFieldRules | src/Dszczer/ListerBundle/Lister/Lister.php:1133-1227 | a required field is rejected exactly when it is missing or has the wrong PHP type; an optional field is skipped unless it holds a string, which is rejected exactly when it decodes to something other than null or the field's class |
| Snapshots.WriteAllSpec | src/Dszczer/ListerBundle/Lister/Lister.php:1133-1227 | the checks run in order and stop at the first rejected field, which raises; each field before it has been written and nothing else has |
| Snapshots.UnserializeRaises | src/Dszczer/ListerBundle/Lister/Lister.php:1128-1229 | `unserialize` raises exactly when the data is empty or some field fails its check; a run that does not raise sets the rebuild flag |
| Snapshots.UnserializeNoRollback | src/Dszczer/ListerBundle/Lister/Lister.php:1128-1229 | a failing `unserialize` keeps what it wrote: the fields before the rejected one hold their new values, and the rest are untouched |
| Snapshots.UnserializeStopsAtPerPage | src/Dszczer/ListerBundle/Lister/Lister.php:1133-1182 | a snapshot holding only an id raises at the missing page size, with the new id already written |
| Snapshots.UnserializeKeepsId | src/Dszczer/ListerBundle/Lister/Lister.php:1133-1137 | a snapshot unserializes, when it does, to a lister with the snapshot's id |
| Snapshots.SerializeReadsAll | src/Dszczer/ListerBundle/Lister/Lister.php:1101-1121 | every field of a serialized lister passes its check and reads the lister's value back, when the codec round-trips |
| Snapshots.UnserializeSerialize | src/Dszczer/ListerBundle/Lister/Lister.php:1101-1229 | `unserialize(serialize())` restores every serialized field and sets the rebuild flag |
| Snapshots.ProjectIgnoresRebuild | src/Dszczer/ListerBundle/Lister/Lister.php:1228 | the rebuild flag is not part of any serialized field |
| Snapshots.StoreInSessionSpec | src/Dszczer/ListerBundle/Lister/Lister.php:177-187 | the lister is stored exactly when it persists and its id is new or overwriting is allowed; the entry is then its snapshot and every other entry is kept |
| Snapshots.NoIdNeverStored | src/Dszczer/ListerBundle/Lister/Lister.php:103-106 | a lister built without an id is never stored |
| Snapshots.GetFromSessionSpec | src/Dszczer/ListerBundle/Lister/Lister.php:117-135 | a lister comes back only for a stored non-empty snapshot whose id is the one asked for, and it has that id; a snapshot failing its checks raises |
| Snapshots.StoreThenGet | src/Dszczer/ListerBundle/Lister/Lister.php:117-187 | a stored lister is read back under its id with every serialized field restored, when the codec round-trips |
| Snapshots.RemoveFromSessionSpec | src/Dszczer/ListerBundle/Lister/Lister.php:143-169 | the entry goes exactly when it exists and either fails to unserialize or unserializes to that id; every other entry stays |
| Snapshots.StoreThenRemove | src/Dszczer/ListerBundle/Lister/Lister.php:143-187 | a stored lister is always removed again under its id |
| Requests.NextDirectionCycle | src/Dszczer/ListerBundle/Lister/Lister.php:979-981 | a click always leaves a direction: ascending first, then descending, then ascending again |
| Requests.HandleFilters | src/Dszczer/ListerBundle/Lister/Lister.php:945-967 | a submitted filter form sets each filter with a field in it: to nothing after a reset or for empty data, otherwise to the data; other filters keep their value |
| Requests.HandleSorters | src/Dszczer/ListerBundle/Lister/Lister.php:969-992 | a click moves the clicked sorter to its next direction and clears every other sorter, and without an effective click nothing changes |
| Requests.ClickSortsByOne | src/Dszczer/ListerBundle/Lister/Lister.php:969-992 | when each sorter is stored under its own name, a click leaves exactly one sorter with a direction: the clicked one |
| Requests.HandleRequestFrame | src/Dszczer/ListerBundle/Lister/Lister.php:942-1001 | `handleRequest` changes only the filters, the sorters and the page, and the bags keep their keys |
| Requests.HandlePage | src/Dszczer/ListerBundle/Lister/Lister.php:994-998 | the page is 1 after a filter submission, and otherwise the page parameter read by `intval` and lifted to 1 (1 without one) |
| Requests.PageParameterRoundTrip | src/Dszczer/ListerBundle/Lister/Lister.php:297-300 | a page parameter holding a positive number moves the lister to that page (to `PHP_INT_MAX` when it is larger), unless a filter submission resets it |
| Requests.PrepareSpec | src/Dszczer/ListerBundle/Lister/Lister.php:1013-1019 | the checks run in this order: an unbuilt filter form while there are filters, then no elements, then no query; the form is built exactly when there is a builder and filters |
| Requests.ApplyChecksFirst | src/Dszczer/ListerBundle/Lister/Lister.php:1013-1021 | a failing check stops `apply` before it reads the request, and the session is left alone |
| Requests.RebuildSpec | src/Dszczer/ListerBundle/Lister/Lister.php:1022-1029 | after the rebuild none is pending; a pending one starts from the external query, or else from the lister's query with its conditions cleared |
| Requests.LikePatternSpec | src/Dszczer/ListerBundle/Lister/Lister.php:1035-1040 | the LIKE pattern never holds a '*': a value without one is wrapped in '%', and otherwise every '*' becomes '%' |
| Requests.WildcardFilterSpec | src/Dszczer/ListerBundle/Lister/Lister.php:1034-1043 | a wildcard filter calls its method once with the pattern and LIKE; after success the value reads as before exactly when it held no '%' |
| Requests.WildcardRestoresPlain | src/Dszczer/ListerBundle/Lister/Lister.php:1036-1038 | stripping '%' from `%v%` gives `v` back exactly when `v` holds no '%' |
| Requests.WildcardRestoresStar | src/Dszczer/ListerBundle/Lister/Lister.php:1040-1042 | turning '*' into '%' and back gives the value back exactly when it held no '%' |
| Requests.RunFilterOtherCases | src/Dszczer/ListerBundle/Lister/Lister.php:1044-1046 | a filter that gets no wildcard treatment is applied as it stands |
| Requests.RunFiltersFrame | src/Dszczer/ListerBundle/Lister/Lister.php:1032-1047 | the filter loop changes only filter values, never the keys, and the query keeps its methods and only gains calls |
| Requests.RunSortersFrame | src/Dszczer/ListerBundle/Lister/Lister.php:1049-1051 | the sorter loop keeps the query's methods and only adds calls |
| Requests.PageSpec | src/Dszczer/ListerBundle/Lister/Lister.php:1052-1053 | the pager counts the query's rows, and the current page ends up between 1 and the last page, unchanged when that page exists |
| Requests.ApplySuccess | src/Dszczer/ListerBundle/Lister/Lister.php:1009-1060 | after a successful `apply` the pager covers the final query's rows, the page lies in range and is the page asked for whenever it exists, no rebuild is pending, and only the query, bag values, pager and page have changed |
| Requests.ApplyQueryStart | src/Dszczer/ListerBundle/Lister/Lister.php:1021-1051 | the paged query starts from the lister's query, or from the external query or no conditions when a rebuild was pending, and the filter and sorter calls follow |
| Requests.ApplyStores | src/Dszczer/ListerBundle/Lister/Lister.php:1055-1057 | with a session, a successful `apply` stores the lister there, overwriting, exactly when it persists |
| Requests.SecondApplyRaises | src/Dszczer/ListerBundle/Lister/Lister.php:1013-1014 | on a lister with filters `apply` runs once: the built form is no builder, so a second `apply` raises |

## Left out

- Symfony forms: `buildFilterForm`, `getSorterForm`, `buildSorterForm` and the form builders are reduced to the request's data. That data is whether the filter form was submitted, its reset button, its fields' data, and the clicked sorter button. A sorter form is assumed valid exactly when its button was clicked.
- A reset filter form is swapped, at `Lister.php:962-964`, for the blank form built from a copy of the same builder. The model keeps `FilterFormBuilt` in both cases, since both are built forms and only "built or not" matters to the model. The contents of the form are not modelled.
- `resolveCustomOptions` and the Symfony option resolver: the constructor stores the resolver's defaults, and `apply`'s re-resolution is left out.
- The router and `setRouter`, `getQuery($clone)` cloning, `__sleep`/`__wakeup`, `Factory`, the Twig extension, the controller and `lister.js` are not part of this model.
- `Helper::uuidv4` is a parameter (`generated`), and so is the opaque codec `encodeAnything`/`decodeAnything` (`Codec`).
- Database access: the query is the set of its methods plus the calls made on it. The rows it returns are a parameter (`fetch`). The result cache of `getResults` is not modelled.
- `apply` pages with `ModelCriteria::paginate`; the model uses the `PagerHelper` arithmetic for it. It assumes the query layer reads a non-positive offset as none and a negative limit as no limit.
- Values.IntVal: the text is read as an optional sign and a run of decimal digits, saturating at the 64-bit bounds, as PHP 7.0's `intval` does. Floating-point and exponent notation are not modelled: PHP 7.1 and later read "1e3" as 1000, the model reads it as 1.
- Pagers.CeilDiv: `(int)ceil($a / $b)` is computed exactly on integers, not through a float.
- Snapshots.ReadField: a decoded `null` bag is read as an empty bag, while the source stores `null` in the bag property. Every later use of the bag would fail on `null` anyway.
- Requests.RunFilter: a text filter whose value is an array or an object raises `TextFilterArrayValue`. PHP 7's `strpos` on an array only warns and returns null, and what the query then receives is not modelled.
- Listers.NewLister: a model class that does not exist or is not a query class raises `InvalidModelClass`. This stands for both the fatal error and the `InvalidArgumentException`.
- Helper.Camelize: the separator is a single character, which is how the bundle always calls it; `ucwords` with several delimiter characters is not modelled.
- Filters.Apply: `method_exists` is modelled as exact membership of the method name, while PHP compares method names case-insensitively.
- Array keys are strings; PHP's integer keys and key normalisation are not modelled.
- `isset` on a present key holding `null` is modelled by the `Null` value failing the type check, which has the same effect on `unserialize`.
- PHP 7 semantics are assumed throughout, notably loose `==` between a number and a non-numeric string.
- Case mapping in `camelize` is ASCII only, as `ucwords`/`lcfirst` are in the C locale.
