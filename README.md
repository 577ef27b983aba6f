# Recipe catalog view-model in Dafny

This project models the state logic of the single-page recipe catalog "Recetas de la
Cocina Española" (component `App` in `src/App.jsx`) and proves its properties. It
leaves out the rendering. The modelled parts are:

- the collection of recipes (`recetas`) and the list of favourite ids (`favoritas`);
- the handlers that change them: add a recipe under a new id, replace a recipe by id,
  and toggle a favourite;
- the visible list `recetasFiltradas`. It filters by category, or by the favourites
  list under `'Favoritas'`. Then it filters by difficulty, then by a case-insensitive
  search over title, description and ingredients. Finally it sorts by title in
  `'asc'` or `'desc'` order when a sort order is set;
- the three-state sort button;
- hash routing: `#receta-<id>` selects the detail view;
- the recipe of the day, kept for one calendar day in storage.

Layout, one module per file:

- `wrappers.dfy` (`Wrappers`): `Option`. It stands for `null`, `undefined`, `NaN`, and
  for a storage entry that is missing or does not parse.
- `sequences.dfy` (`Sequences`): `Array.prototype.filter` and the stable
  `Array.prototype.sort`, modelled as an insertion sort. Also the subsequence,
  sortedness and total-preorder predicates.
- `text.dfy` (`Text`): the ECMAScript string operations the component uses:
  `includes`, `startsWith`, `substring(1)`, `split('-')`, `parseInt` and `String(n)`.
- `recipes.dfy` (`Recipes`): the `Recipe` record, the favourites toggle, add, edit, and
  `find` by id.
- `view.dfy` (`View`): the filter stages, the comparator, `recetasFiltradas` and the
  sort button.
- `routing.dfy` (`Routing`): `handleHashChange`.
- `daily.dfy` (`Daily`): the recipe-of-the-day effect.
- `catalog.dfy` (`Catalog`): class `App`. Its fields are the component's state cells.
  Each handler and effect is a method that overwrites those cells with the value of
  the pure functions above.

External pieces are parameters:

- `toLowerCase` and `localeCompare` are the two fields of a `Locale` value. Its laws:
  lower-casing `""` gives `""`, and the comparison is a total preorder.
- `Math.random()` is a real in [0, 1).
- `new Date().toDateString()` is a string `hoy`.
- `Date.now()` is the integer `now` passed to `AddReceta`.
- `location.hash` is a string.

Behaviour of the component that a reader might not expect:

- Favourites are an array, not a set. A toggle removes every occurrence of the id, or
  appends the id at the end. Toggling a favourite twice gives back the same ids with
  that id moved to the end. Only a non-favourite comes back exactly.
- A new recipe gets `Date.now()` with no check against existing ids. Ids stay unique
  only when that clock reading is not already an id.
- On an empty collection the recipe-of-the-day effect returns without touching any
  state. It does not reset the shown recipe.
- A cached pick dated today is shown as stored, even if that recipe has since been
  edited.

## Model

| member | source | states |
|---|---|---|
| `Sequences.Filter` | src/App.jsx:94-106 | A filter result holds exactly the elements that pass, with every element of the input that passes present, and it is no longer than the input |
| `Sequences.FilterIsSubsequence` | src/App.jsx:94-106 | A filter result is a subsequence of its input: it keeps the input order |
| `Sequences.FilterFilter` | src/App.jsx:94-106 | Two filters in a row are one filter by the conjunction |
| `Sequences.FilterAll` | src/App.jsx:99-106 | A filter that every element passes returns the input unchanged |
| `Sequences.Insert` | src/App.jsx:107-110 | One insertion step of the sort adds exactly one element |
| `Sequences.Sort` | src/App.jsx:107-110 | `sort` returns a permutation of its input |
| `Sequences.SortSorted` | src/App.jsx:107-110 | With a total comparator, neighbours in the sorted list are in comparator order |
| `Sequences.SortedIsPairwise` | src/App.jsx:107-110 | With a total preorder, neighbour order implies order between any two positions |
| `Sequences.SortTiesKeepOrder` | src/App.jsx:107-108 | A comparator that always returns 0 (no sort order set) leaves the list unchanged |
| `Sequences.SortStable` | src/App.jsx:107-110 | The sort is stable: elements the comparator ties keep their input order |
| `Text.StartsWith` | src/App.jsx:32 | `startsWith` holds exactly when the prefix is an initial segment of the string |
| `Text.Includes` | src/App.jsx:103-105 | `includes` holds exactly when the term occurs at some position of the string |
| `Text.IncludesEmpty` | src/App.jsx:102-105 | Every string includes the empty search term |
| `Text.DropFirst` | src/App.jsx:31 | `substring(1)` drops the `#`, and an empty hash stays empty |
| `Text.Split` | src/App.jsx:33 | `split('-')` returns at least one piece, and no piece contains `-` |
| `Text.SplitJoin` | src/App.jsx:33 | Joining the pieces of `split` with the separator gives back the string |
| `Text.SplitAfterPrefix` | src/App.jsx:32-33 | After `receta-` there is always a second piece: the text up to the next `-` |
| `Text.TrimStart` | src/App.jsx:33 | `parseInt` skips exactly the leading ECMAScript white space |
| `Text.DigitPrefix` | src/App.jsx:33 | `parseInt` reads the longest run of digits of the radix |
| `Text.DecimalString` | src/App.jsx:177 | The id printed into a detail link is a non-empty run of decimal digits |
| `Text.ParseUnsigned` | src/App.jsx:33 | An empty text or one not starting with a decimal digit is `NaN`, as is `0x` with no hex digit after it; a text starting with `1`-`9` gives a number |
| `Text.ParseInt` | src/App.jsx:33 | Blank text, or text whose first non-space character is no sign and no digit, is `NaN`. A first non-space digit `1`-`9` gives a non-negative number, and `-` followed by `1`-`9` a non-positive one |
| `Text.ParseDecimalString` | src/App.jsx:33 | `parseInt` of a printed non-negative integer gives back that integer |
| `Recipes.ToggleFavorito` | src/App.jsx:73-75 | After a toggle the id is listed exactly when it was not before, and membership of every other id is unchanged |
| `Recipes.ToggleFavoritoEffect` | src/App.jsx:74 | Toggling a listed id removes every occurrence and leaves the rest in order with the same counts; toggling an unlisted id appends it at the end |
| `Recipes.ToggleFavoritoNoDuplicates` | src/App.jsx:74 | A duplicate-free favourites list stays duplicate-free |
| `Recipes.ToggleFavoritoTwice` | src/App.jsx:74 | Toggling twice restores an unlisted id's list exactly. For a listed id it gives the list without that id, then the id once at the end, which is the same multiset when the list had no duplicates |
| `Recipes.AddReceta` | src/App.jsx:77-79 | Adding grows the list by one and leaves the existing prefix intact. The last element is the draft with the supplied id |
| `Recipes.AddRecetaUniqueIds` | src/App.jsx:78 | Adding under an id nobody has keeps ids unique |
| `Recipes.AddRecetaThenFind` | src/App.jsx:78 | Right after an add under a fresh id, that id finds the new recipe |
| `Recipes.EditReceta` | src/App.jsx:81-83 | Editing keeps the length. Every recipe with the edited id becomes the update, and every other recipe is unchanged |
| `Recipes.EditRecetaNoMatch` | src/App.jsx:82 | Editing an id that is not in the collection leaves it unchanged |
| `Recipes.EditRecetaUniqueIds` | src/App.jsx:82 | Editing keeps ids unique |
| `Recipes.EditRecetaThenFind` | src/App.jsx:82 | After editing an existing id, that id finds the updated recipe |
| `Recipes.Find` | src/App.jsx:34 | `find` returns nothing exactly when no recipe has the id; otherwise it returns the first recipe with it |
| `Recipes.FindUnique` | src/App.jsx:34 | With unique ids, `find` by a recipe's id returns that recipe |
| `View.PasaCategoria` | src/App.jsx:95-100 | Under `'Favoritas'` a recipe passes exactly when its id is in the favourites; otherwise under `'Todas'` or when its category is the selected one |
| `View.PasaDificultad` | src/App.jsx:101 | A recipe passes under `'Todas'` or when its difficulty is the selected one |
| `View.PasaBusqueda` | src/App.jsx:102-106 | A recipe passes when the lower-cased term occurs in its lower-cased title, description or ingredients |
| `View.Comparador` | src/App.jsx:107-110 | The sort comparator: 0 for every pair when unsorted, `localeCompare` of the titles under `'asc'` and of the swapped titles under `'desc'` |
| `View.Filtradas` | src/App.jsx:94-106 | Before sorting, the list holds exactly the recipes of the collection that pass all three stages, and is no longer than the collection |
| `View.RecetasFiltradas` | src/App.jsx:94-110 | After sorting, the visible list still holds exactly the recipes of the collection that pass all three stages |
| `View.FiltradasIsOneFilter` | src/App.jsx:94-106 | The three filter stages in a row select the same recipes, in the same order, as one filter by all three predicates |
| `View.RecetasFiltradasSpec` | src/App.jsx:94-110 | The visible list holds exactly the recipes of the collection that pass category (or favourites), difficulty and search. It is a permutation of a subsequence of the collection, and equals that subsequence when no sort order is set |
| `View.FavoritasFilter` | src/App.jsx:96-97 | Under `'Favoritas'`, a recipe is visible exactly when its id is a favourite and it passes the other stages, whatever its category |
| `View.TodoVisible` | src/App.jsx:99-108 | With `'Todas'`, `'Todas'`, an empty search and no sort order, the visible list is the whole collection in order |
| `View.ComparadorTotalPreorder` | src/App.jsx:107-110 | Both title comparators, `'asc'` and `'desc'`, are total preorders |
| `View.RecetasFiltradasOrden` | src/App.jsx:107-110 | Under `'asc'` titles never decrease by `localeCompare`; under `'desc'` they never increase |
| `View.RecetasFiltradasStable` | src/App.jsx:107-110 | Recipes whose titles compare equal keep their collection order in the visible list |
| `View.ExampleCategoria` | src/App.jsx:96-99 | The two-recipe example: category `Postre` shows only the flan |
| `View.ExampleBusqueda` | src/App.jsx:102-106 | The two-recipe example: searching "tortilla" shows only the tortilla |
| `View.ExampleOrden` | src/App.jsx:107-110 | The two-recipe example: ascending order puts "Flan" before "Tortilla" |
| `View.NextOrden` | src/App.jsx:165 | The sort button never leads to "unsorted"; it gives `'desc'` exactly after `'asc'` |
| `View.PressesAlternate` | src/App.jsx:165 | After the first press, each press flips between `'asc'` and `'desc'`, and two presses return to the same order |
| `Routing.HandleHashChange` | src/App.jsx:30-41 | The new selection is cleared, the old one, or a recipe of the collection |
| `Routing.HandleHashChangeSpec` | src/App.jsx:30-41 | A fragment without `receta-` clears the selection, as the back button's empty hash does (line 118). Otherwise the first recipe with the parsed id is selected, and an id that does not parse or has no recipe keeps the selection |
| `Routing.DetailLinkSelects` | src/App.jsx:30-41 | The detail link `#receta-<id>` of a card (lines 177, 193) selects that card's recipe when ids are unique |
| `Routing.NegativeIdLinkKeepsSelection` | src/App.jsx:33 | A link for a negative id does not route: `split` leaves an empty piece, so the selection is unchanged |
| `Daily.RandomIndex` | src/App.jsx:67 | `Math.floor(Math.random() * n)` is a valid index for a non-empty collection |
| `Daily.PickRecetaDelDia` | src/App.jsx:60-71 | An empty collection changes nothing. Otherwise the shown recipe is the stored pick, dated today, and a newly stored pick is a recipe of the collection |
| `Daily.PickRecetaDelDiaSpec` | src/App.jsx:60-71 | An empty collection changes nothing, and a pick stored today is shown and kept. Otherwise the recipe at index `Math.floor(random * n)` is shown and stored with today's date |
| `Daily.SameDaySamePick` | src/App.jsx:62-65 | Running the effect again on the same day, whatever the random value, changes nothing |
| `Daily.NewDayNewPick` | src/App.jsx:66-69 | On a new day a non-empty collection gets a pick from the collection, stored with today's date |
| `Catalog.App.constructor` | src/App.jsx:17-27 | The initial state takes stored values when present and readable, and seed data or defaults otherwise. Filters start neutral, with nothing sorted, shown or selected |
| `Catalog.App.Visibles` | src/App.jsx:94-110 | The visible list of the current state holds exactly the recipes of the collection that pass the current filters |
| `Catalog.App.ToggleFavorito` | src/App.jsx:73-75 | The favourites cell becomes the toggled list, and stays duplicate-free |
| `Catalog.App.AddReceta` | src/App.jsx:77-79 | The collection cell becomes the list with the draft appended. Under a fresh id the new recipe is found by its id, and ids that were unique stay unique |
| `Catalog.App.EditReceta` | src/App.jsx:81-83 | The collection cell becomes the edited list. Unique ids stay unique, an id already present finds the update, and an unknown id changes nothing |
| `Catalog.App.SelectCategoria` | src/App.jsx:148 | A category button sets the category and resets the difficulty to `'Todas'` |
| `Catalog.App.SelectDificultad` | src/App.jsx:157 | A difficulty button sets the difficulty only |
| `Catalog.App.SetTerminoBusqueda` | src/App.jsx:144 | Typing sets the search term only |
| `Catalog.App.ToggleOrden` | src/App.jsx:165 | The sort button moves the order one step of the cycle, never to unsorted |
| `Catalog.App.HashChanged` | src/App.jsx:30-41 | A hash change sets the selection as the routing rule says |
| `Catalog.App.ShowRecetaDelDia` | src/App.jsx:60-71 | The shown recipe and the stored pick become those of the daily-pick rule |
| `Catalog.App.RecetasChanged` | src/App.jsx:29-71 | The effects that depend on the collection run in declaration order: routing, then the daily pick |

## Left out

- Rendering, CSS class selection (`getDificultadColor`), the dark-mode toggle and its storage entry, and the form's open/close and editing cells: presentation only.
- Writes to `localStorage` of the collection and the favourites: persistence I/O. The stored recipe-of-the-day entry is a field (`recetaGuardada`) because the effect reads it back.
- `JSON.parse` and `JSON.stringify`: a stored entry is `Some(value)` when it is present and parses, and `None` otherwise. The round trip of a recipe through JSON is taken as exact.
- Registering and removing the `hashchange` listener and React's effect scheduling: event plumbing. The model exposes each effect as a method, and `RecetasChanged` runs the two collection-dependent effects in order.
- `Math.random`, `Date.now` and `toDateString` are parameters. Nothing is assumed about them beyond `Math.random()` lying in [0, 1).
- `toLowerCase` and `localeCompare` are abstract. Unicode case mapping and collation are not modelled; only the laws stated on `Locale` are used.
- JavaScript numbers: ids are unbounded integers. `parseInt` rounding above 2^53, its `Infinity` for very long digit runs, and `-0` (equal to `0` under `===`) are not modelled.
- `Sort` is one stable algorithm. For a comparator that is not a total preorder, ECMAScript leaves the order implementation-defined, and the model fixes one such order.
- Strings are sequences of Unicode scalar values, not UTF-16 code units.
- `src/components/RecipeForm.jsx` and `src/components/RecetaDetalle.jsx`: form and detail rendering. RecipeForm.jsx's only logic is a one-field record update. RecetaDetalle.jsx's only logic is splitting the ingredients on commas for display.
- `Text.DecimalString` prints every natural number in plain decimal. JavaScript prints numbers of 10^21 and above in exponent form, so `Routing.DetailLinkSelects` requires ids below 10^21.
