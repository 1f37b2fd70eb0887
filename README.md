# Professionals directory: a Dafny model

The page shows a fixed list of four professionals as cards. It offers:

- a search field and a "refine" field, both matched case-insensitively against name, role and city;
- a role select and an order select ("relevance", "rating" or "reviews");
- a favourites toggle, a "show all" button and a "clear" button;
- a detail overlay that opens for a card's record.

One function, `render()`, redraws the list. It runs when the page loads, when the search button is pressed, on every keystroke in the refine field, when either select changes, and after the "show all", "clear" and favourites buttons have updated the controls. Typing in the search field alone does not run it. The function:

1. copies the store;
2. narrows the copy in four stages: search term, favourites flag, refine term, role;
3. sorts the copy with a stable sort by descending rating, descending reviews or ascending id;
4. writes how many records were found.

The model follows that structure:

- `Text`: ECMAScript `trim` (its exact whitespace set), `toLowerCase` on ASCII and Latin-1, substring search (`includes`), and the decimal text of a count.
- `Sequences`: array filtering, and the first-occurrence de-duplication that spreading a `Set` performs.
- `Directory`: the record type, the page's store, lookup by id, the role options, and the detail overlay as a class (`DetailView`) whose `Open` method updates its fields.
- `Sorting`: the three orders as integer ranks, and a functional specification of the stable sort (`Insert`, `SortBy`). Its partner is `SortInPlace`, an in-place insertion sort over an `array`, proved equal to `SortBy`.
- `Pipeline`: the query the controls hold, the four stages, and `Render`. `Render` is a method: it narrows stage by stage, copies into an array, sorts in place and builds the count text. Lemmas about the result say what the page promises:
  - exactly the admitted records, each as often as in the store;
  - the chosen order;
  - stability;
  - defaults show everything;
  - stricter queries show fewer records;
  - case-insensitive search;
  - the count can be read back.
- `Controls`: the controls as a class (`ControlPanel`) whose handler methods change its fields and then render.
- `Scenarios`: concrete queries on the page's own store and what they show.

Ratings are kept in tenths of a star (4.9 is 49). With that scale, the rating subtractions the comparators perform are exact integers.

## Model

| member | source | states |
|---|---|---|
| Directory.StoreIsAscending | script.js:1-42 | the page's store has strictly rising, hence unique, ids |
| Directory.FindById | script.js:153 | `None` exactly when no record has the id; otherwise the first record with that id |
| Directory.FindOwnId | script.js:153 | with unique ids, looking up a record's own id returns that record |
| Directory.RoleColumn | script.js:63 | one entry per record, holding that record's role |
| Directory.DistinctRoles | script.js:63 | the role options list the store's roles once each, nothing else, in order of first appearance (through `Sequences.DistinctInOrder`) |
| Directory.DistinctRolesSpec | script.js:63 | role options: no duplicates, every record's role present, nothing else, in order of first appearance |
| Directory.DetailView.Open | script.js:152-157 | an unknown id leaves the overlay unchanged; a known id shows that record's name and bio and opens the overlay |
| Sequences.Filter | script.js:79-104 | a subsequence of the input whose elements all pass the test, containing every element that passes |
| Sequences.FilterCounts | script.js:79-104 | a filter keeps every copy of each element that passes the test and no copy of one that fails |
| Sequences.FilterAppend | script.js:79-104 | filtering distributes over concatenation |
| Sequences.FilterMonotone | script.js:79-104 | a stricter test keeps a subsequence of what a looser one keeps |
| Sequences.Dedup | script.js:63 | result lists each distinct element of the input once, nothing else, in order of first occurrence |
| Sequences.DistinctInOrderAppend | script.js:63 | adding one element to the input extends the distinct listing by that element exactly when it is new |
| Text.Trim | script.js:77 | never longer than its input; `Text.TrimShape` and `Text.TrimEmptyIffBlank` state what it leaves |
| Text.TrimShape | script.js:77 | trim leaves the stretch after the leading whitespace, followed only by whitespace, starting and ending with non-whitespace |
| Text.TrimUnchanged | script.js:77 | a string with non-whitespace ends is its own trim |
| Text.TrimEmptyIffBlank | script.js:77-78 | the trimmed term is empty (falsy) exactly when the field holds only whitespace |
| Text.LowerChar | script.js:77 | a modelled capital (`Text.IsCapital`) moves up by 0x20 to its small letter, every other character is left as it is, and the result is never a capital |
| Text.Lower | script.js:77 | length kept, each character lower-cased by `Text.LowerChar`; `Text.TrimLower` relates it to trimming |
| Text.TrimLower | script.js:77 | trimming and lower-casing commute |
| Text.Contains | script.js:80-82 | true exactly when the needle occurs at some position of the text |
| Text.NatToString | script.js:119 | a non-empty string of decimal digits, without a leading zero unless it is "0"; one digit exactly below 10 |
| Text.NatToStringRoundTrip | script.js:119 | reading the digits back gives the number |
| Pipeline.NormalizeTerm | script.js:77-78 | the term is no longer than the field's text, and empty (so its stage is switched off) exactly when the text is blank |
| Pipeline.Matches | script.js:79-83 | true exactly when the term occurs at some position of the lower-cased name, role or city |
| Pipeline.SearchStage | script.js:77-84 | empty term: unchanged; otherwise a subsequence keeping every copy of each record that matches the term and no copy of any other |
| Pipeline.FavoritesStage | script.js:86-89 | flag off: unchanged; flag on: a subsequence keeping every copy of each favourite and no copy of any other record |
| Pipeline.RoleStage | script.js:101-105 | no role: unchanged; otherwise a subsequence keeping every copy of each record with exactly that role and no copy of any other |
| Pipeline.Admits | script.js:77-105 | the four tests together; `Pipeline.NarrowedIsFilter` and `Pipeline.NarrowedSingle` tie it to the stages |
| Pipeline.Narrowed | script.js:73-105 | the four stages in the source's order; its properties are `Pipeline.NarrowedIsFilter`, `Pipeline.NarrowedAppend` and `Pipeline.NarrowedUniqueIds` |
| Pipeline.Results | script.js:73-116 | the narrowed list sorted by the selected order; its properties are `Pipeline.ResultsAreAdmitted`, `Pipeline.ResultsOrdered` and `Pipeline.ResultsStable` |
| Pipeline.NarrowedIsFilter | script.js:73-105 | the four stages in sequence are one filter by all four tests together |
| Pipeline.StagesDistribute | script.js:73-105 | each record passes or fails the stages independently of the others |
| Pipeline.NarrowedAppend | script.js:73-105 | narrowing a concatenation narrows each part |
| Pipeline.NarrowedSingle | script.js:73-105 | a single record comes through all four stages exactly when it is admitted |
| Pipeline.SearchSingle | script.js:78-84 | the search stage keeps a single record exactly when the term is empty or matches it |
| Pipeline.FavoritesSingle | script.js:87-89 | the favourites stage keeps a single record exactly when the flag is off or the record is a favourite |
| Pipeline.RoleSingle | script.js:103-105 | the role stage keeps a single record exactly when no role is selected or the role is equal |
| Pipeline.ResultsAreAdmitted | script.js:73-116 | each admitted record is shown as often as it occurs in the store, no other record is shown, and the shown list is a permutation of the filtered store |
| Pipeline.ResultsOrdered | script.js:107-116 | "rating": non-increasing ratings; "reviews": non-increasing reviews; any other value: non-decreasing ids, strictly rising with unique ids |
| Pipeline.NarrowedUniqueIds | script.js:73-105 | narrowing a store with unique ids keeps them unique |
| Pipeline.SubsequenceUniqueIds | script.js:73-105 | a subsequence of a list with unique ids has unique ids |
| Pipeline.ResultsStable | script.js:107-116 | records with equal sort keys keep the order the stages left them in |
| Pipeline.DefaultsNarrowNothing | script.js:77-105 | with every control but the order at its default, no stage removes a record |
| Pipeline.DefaultShowsAll | script.js:73-116 | with every control at its default, a store in id order is shown whole and unchanged |
| Pipeline.DefaultShowsStore | script.js:73-116 | with the defaults, the page's own store is shown whole, in id order |
| Pipeline.StricterQueryShowsFewer | script.js:73-116 | a query whose tests imply another's shows a sub-multiset of what the other shows |
| Pipeline.FavoritesNarrows | script.js:86-89 | switching the favourites flag on never adds records |
| Pipeline.SearchIgnoresCase | script.js:77-98 | search or refine terms that lower-case alike give the same result |
| Pipeline.NormalizeIgnoresCase | script.js:77 | terms that lower-case alike normalise alike |
| Pipeline.CountText | script.js:119 | "1 profissional encontrado" for one record; otherwise the number followed by "profissionals encontrados" |
| Pipeline.CountTextNumber | script.js:119 | the number at the start of the count text is the count |
| Pipeline.Narrow | script.js:73-105 | running the enabled stages one after another on the copy yields the narrowed list |
| Pipeline.Render | script.js:73-119 | the shown list is the narrowed store, sorted by the selected order; the count is the count text of its length |
| Pipeline.SortedCopy | script.js:108-116 | the narrowed list copied into an array and sorted there in place equals the sort specification `Sorting.SortBy` |
| Sorting.OrderOf | script.js:108-116 | "rating" selects the rating order, "reviews" the reviews order, every other value the id order |
| Sorting.Rank | script.js:110-115 | rating order ranks by the negated rating, reviews order by the negated review count, the natural order by the id; `Pipeline.ResultsOrdered` states the resulting orders |
| Sorting.Insert | script.js:110-115 | one step of the stable insertion sort; `Sorting.InsertPermutes`, `Sorting.InsertKeepsSorted`, `Sorting.InsertStable` and `Sorting.InsertAt` state it |
| Sorting.SortBy | script.js:110-115 | the stable sort specification; `Sorting.SortByPermutes`, `Sorting.SortBySorted` and `Sorting.SortByStable` state it |
| Sorting.InsertPermutes | script.js:110-115 | inserting adds exactly the inserted record |
| Sorting.InsertKeepsSorted | script.js:110-115 | inserting into a sorted list keeps it sorted |
| Sorting.SortByPermutes | script.js:110-115 | the sort is a permutation of its input |
| Sorting.SortBySorted | script.js:110-115 | the sort's output is in non-decreasing rank |
| Sorting.InsertStable | script.js:110-115 | inserting a record places it after all records already of its rank |
| Sorting.SortByStable | script.js:110-115 | for every rank, the records of that rank come out in their input order |
| Sorting.InsertAt | script.js:110-115 | a record goes right after the records ranked no higher and before those ranked higher |
| Sorting.SortBySortedInput | script.js:110-115 | an input already in order is returned unchanged |
| Sorting.SortByIdStrict | script.js:115 | with unique ids, the id order is strictly ascending |
| Sorting.SortInPlace | script.js:110-115 | the array ends holding the stable sort of its old contents |
| Sorting.InsertIntoPrefix | script.js:110-115 | one insertion pass turns `a[..i+1]` into the sorted prefix with `a[i]` inserted and leaves the rest alone |
| Sorting.ShiftAbove | script.js:110-115 | the records of `a[..i]` ranked above the inserted record move one place right; the returned gap follows every record ranked no higher |
| Controls.ControlPanel.Reset | script.js:169-173 | every control back at its default: empty fields, no role, "relevance", favourites off |
| Controls.ControlPanel.ToggleFavorites | script.js:182 | the favourites flag flips and nothing else changes |
| Controls.ControlPanel.Refresh | script.js:166-202 | shows the results of the current controls, with the matching count |
| Controls.ControlPanel.ShowAll | script.js:168-175 | controls reset and the default results shown; a store in id order is shown whole |
| Controls.ControlPanel.Clear | script.js:186-193 | the same resets and results as "show all" |
| Controls.ControlPanel.Favorites | script.js:181-184 | only the favourites flag flips; the results of the new controls are shown |
| Controls.ToggleTwiceRestores | script.js:182 | pressing the favourites button twice restores every control |
| Controls.FourFound | script.js:119 | the count for the whole store is "4 profissionals encontrados" |
| Controls.InitialPage | script.js:200-202 | the first render shows all four records in id order, with that count |
| Scenarios.OnlyOneAdmitted | script.js:73-116 | when exactly one of four records passes a query, that record alone is shown |
| Scenarios.NoneAdmitted | script.js:73-116 | when none of four records passes a query, nothing is shown |
| Scenarios.DevOpsByRating | script.js:101-110 | the "DevOps" role with the rating order shows Lucas Pereira alone |
| Scenarios.SaoPauloTerm | script.js:77 | the search text "São Paulo" normalises to "são paulo" |
| Scenarios.SearchSaoPaulo | script.js:77-84 | searching "São Paulo" shows Mariana Silva alone |
| Scenarios.SaoPauloRejectsAscii | script.js:79-83 | a record whose name, role and city are plain ASCII fails the "São Paulo" search |
| Scenarios.FavoritesOnDefaults | script.js:86-89 | with no favourites in the store, the favourites filter shows nothing |
| Scenarios.NoneFound | script.js:119 | the count for an empty result is "0 profissionals encontrados" |
| Scenarios.StoreByReviews | script.js:111-112 | the store by descending reviews is Mariana, Ana, Lucas, Pedro |
| Scenarios.ByReviewsOnDefaults | script.js:108-116 | choosing the reviews order with defaults elsewhere shows that order |
| Scenarios.SearchUpperCase | script.js:77-82 | "MARIANA" and "mariana" find the same records |

## Left out

- The DOM: building cards, the "Nenhum profissional encontrado." placeholder, filling the role select's options, focus handling, and event registration (script.js:44-59, 64-69, 121-148, 166-198). The model keeps the values these read and write.
- Closing the overlay (script.js:161-163, 195-198): it only removes a CSS class and has nothing to prove.
- The controls' initial values are in the page markup, which is not part of this model. `ControlPanel`'s constructor assumes the defaults that "show all" restores.
- Ratings: JavaScript stores these as floating-point numbers. The model keeps them as integer tenths, which is exact for the one-decimal ratings of the store.
- Text.LowerChar: lower-cases only ASCII and Latin-1 capitals. Other Unicode case mappings (including ones that change length) are not modelled.
- Text.NatToString: covers non-negative integers only. A list length is never negative, and exponent notation never arises for such lengths.
- Pipeline.CountText: the code writes "profissionals encontrados" for every count other than one, where Portuguese would use "profissionais". The model follows the code.
- No lemma computes the role options of the page's own store concretely. `Directory.DistinctRolesSpec` states them for any store.
