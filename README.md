# Product catalog filters, modelled in Dafny

The `App` component of a small product-catalog browser joins three fixed datasets
(users, categories, products) into an enriched product list, the *universe*, and lets
the viewer narrow the displayed list by owner and by free-text search, and keep a list of
selected category ids. This project models that derivation and the filter state:

- `optional.dfy`: `Option`, the model of TypeScript's `T | null`.
- `seqs.dfy`: `Find` and `Filter`, the models of `Array.prototype.find` and
  `Array.prototype.filter`, with the order-preserving subsequence relation and the
  lemmas about filtering.
- `text.dfy`: `Lower` (`toLowerCase`, ASCII letters only) and `Includes`
  (`String.prototype.includes`), proved equal to a reference substring definition.
- `catalog.dfy`: the entities, the lookups `FindUserById` / `FindCategoryById`, the joins
  `PrepareCategories` / `PrepareProducts`, the user filter, the search filter and the
  update of the selected category ids.
- `app_state.dfy`: class `ProductCatalog`, whose fields are the `useState` cells
  (`currentUser`, `products`, `query`, `currentCategory`) plus the immutable `universe`;
  each event handler is a method with a field frame.

The behaviour follows the code rather than a design in which the three filters are
always combined. Selecting a user recomputes the list from the universe by owner alone.
A search change recomputes it by the query alone and keeps `currentUser` as it was. Toggling
a category only updates `currentCategory` and never changes the displayed products.
`ToggleCategory` and `ResetCategories` state this in their postconditions.

Absent joins are `None`, never errors: a category whose `ownerId` matches no user gets
`user == None`, a product whose `categoryId` matches no category gets `category == None`,
and both the owner test and the search treat a missing field as "no match".

## Model

| member | source | states |
|---|---|---|
| `Seqs.Find` | src/App.tsx:14 | `None` exactly when no element satisfies the test; otherwise an element that satisfies it and that no earlier element does |
| `Seqs.Filter` | src/App.tsx:46-48 | the result is an order-preserving subsequence of the input whose elements are exactly the input's matching elements |
| `Seqs.FilterCounts` | src/App.tsx:46-48 | the result holds each matching element as often as the input does and no other element |
| `Seqs.FilterIsUnique` | src/App.tsx:46-48 | any order-preserving selection of exactly the matching elements equals the filter's result, so `Filter` and `FilterCounts` together determine it |
| `Catalog.FindUserById` | src/App.tsx:13-15 | `None` iff no user has the id; otherwise a user with that id, the first one in dataset order |
| `Catalog.FindUserByUniqueId` | src/App.tsx:13-15 | with unique user ids, looking up a user's own id returns that user |
| `Catalog.FindCategoryById` | src/App.tsx:24-28 | `None` iff no prepared category has the id; otherwise the first prepared category with that id |
| `Catalog.PrepareCategories` | src/App.tsx:17-22 | same length and order as the dataset; each element keeps every dataset field; its `user` is the lookup of its `ownerId`, so (by that lookup's contract) the first dataset user with that id, absent iff no user has it |
| `Catalog.PrepareProducts` | src/App.tsx:30-35 | same length and order as the dataset; each element keeps every dataset field; its `category` is the lookup of its `categoryId`, so the first prepared category with that id, absent iff none has it |
| `Catalog.ProductOwner` | src/App.tsx:17-35 | after both joins (category ids unique), a product's owner id is `k` iff its dataset category is owned by `k` and a user with id `k` exists |
| `Catalog.UserFilter` | src/App.tsx:46-48 | the ordered subsequence of the universe whose category and owner are both present with owner id equal to the chosen user's; a product with a missing category or owner is excluded |
| `Catalog.MatchesQueryIsSearchHit` | src/App.tsx:55-60 | the `includes` test on the lower-cased name, title and owner name holds iff the lower-cased query is a substring of one of the present fields |
| `Catalog.QueryFilter` | src/App.tsx:54-63 | the ordered subsequence of the universe whose lower-cased name, category title or owner name contains the lower-cased query as a substring; missing fields never match |
| `Catalog.QueryEmptyKeepsAll` | src/App.tsx:54-63 | the empty query keeps the whole universe in order |
| `Catalog.QueryIgnoresCase` | src/App.tsx:56-59 | lower-casing the query first does not change the result |
| `Catalog.QueryNarrows` | src/App.tsx:54-63 | when the shorter query occurs in the longer one, every product the longer query keeps is also kept by the shorter one |
| `Catalog.Toggle` | src/App.tsx:170-182 | an absent id is appended at the end; a present id loses every occurrence and the other ids keep their order and counts; an id ends up selected iff it was not before |
| `Catalog.ToggleNoDuplicates` | src/App.tsx:170-182 | toggling keeps a duplicate-free selection duplicate-free |
| `Catalog.ToggleTwiceRestores` | src/App.tsx:170-182 | toggling an unselected id twice restores the exact previous selection |
| `Catalog.ToggleTwiceSelected` | src/App.tsx:170-182 | toggling a selected id twice keeps the same set of ids but moves that id to the end |
| `Text.Lower` | src/App.tsx:56 | same length, no upper-case ASCII letter left, each character kept or mapped from upper to lower case |
| `Text.LowerIdempotent` | src/App.tsx:56 | lower-casing twice equals lower-casing once |
| `Text.IncludesIsSubstring` | src/App.tsx:56-59 | `includes` holds iff the part occurs at some position of the string |
| `AppState.ProductCatalog.constructor` | src/App.tsx:37-43 | the universe is the joined product list; all products shown, no user, empty query, no category selected |
| `AppState.ProductCatalog.HandleUserFilter` | src/App.tsx:45-52 | `currentUser` becomes the user and `products` the user filter of the universe; query and selected categories unchanged |
| `AppState.ProductCatalog.ShowAll` | src/App.tsx:69-72 | `currentUser` becomes absent and `products` the whole universe; the rest unchanged |
| `AppState.ProductCatalog.ChangeQuery` | src/App.tsx:120-123 | `products` becomes the query filter of the universe for the new value and `query` that value; user and categories unchanged |
| `AppState.ProductCatalog.ClearQuery` | src/App.tsx:138-141 | `query` becomes empty and `products` the whole universe; user and categories unchanged |
| `AppState.ProductCatalog.ToggleCategory` | src/App.tsx:170-182 | the selection becomes its toggle; `products`, `currentUser` and `query` are unchanged; no duplicates is kept |
| `AppState.ProductCatalog.ResetCategories` | src/App.tsx:194-196 | the selection becomes empty; everything else unchanged |

Every method of `ProductCatalog` also keeps `Valid()`: the displayed list is an ordered
subsequence of the universe, and the selection has no duplicates.

## Left out

- Rendering (src/App.tsx:74-299): markup, `classnames` styling, the active-tab and
  selected-button classes and the colour chosen from the owner's `sex`. These are presentational only.
- The sort icons (src/App.tsx:225-264): they are not connected to any ordering logic.
- src/components/Product/Product.tsx: a render-only component whose two lookups repeat the ones modelled from src/App.tsx.
- The datasets under `src/api` and the types under `src/types` are not part of this model. The
  datasets are constructor parameters; uniqueness of ids is a precondition only of the
  lemmas that need it. `sex` is kept as a string.
- Text.Lower: covers ASCII letters only, not the full Unicode case mapping of `toLowerCase`.
- React's asynchronous, batched `setState` and closure capture: each handler is one
  atomic transition. The category toggle reads the selection as it was at the click.
- The commented-out `handleCategory` stub (src/App.tsx:65-67) has no behaviour.
