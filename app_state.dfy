/**
 * The `App` component's state: the four `useState` cells and the handlers that
 * write them. Each handler is one atomic transition; every displayed list is
 * computed from the prepared universe, never from the list shown before.
 */
module AppState {
  import opened Optional
  import opened Seqs
  import opened Catalog

  class ProductCatalog {
    /** `preparedProducts`, computed once from the datasets. */
    const universe: seq<Product>
    var currentUser: Option<User>
    var products: seq<Product>
    var query: string
    var currentCategory: seq<int>

    /** What every transition keeps: the displayed list is an ordered selection of the universe, and no category is selected twice. */
    ghost predicate Valid()
      reads this
    {
      IsSubsequence(products, universe) && NoDuplicates(currentCategory)
    }

    /** The initial state: all products shown, no user, empty query, no category selected. */
    constructor (users: seq<User>, categories: seq<RawCategory>, rawProducts: seq<RawProduct>)
      ensures universe == PrepareProducts(rawProducts, PrepareCategories(categories, users))
      ensures currentUser == None && products == universe && query == "" && currentCategory == []
      ensures Valid()
    {
      var prepared := PrepareProducts(rawProducts, PrepareCategories(categories, users));
      SubsequenceReflexive(prepared);
      universe := prepared;
      currentUser := None;
      products := prepared;
      query := "";
      currentCategory := [];
    }

    /** `handleUserFilter(user)`. */
    method HandleUserFilter(user: User)
      requires Valid()
      modifies this`currentUser, this`products
      ensures Valid()
      ensures currentUser == Some(user)
      ensures products == UserFilter(universe, user)
      ensures query == old(query) && currentCategory == old(currentCategory)
    {
      var filteredProducts := UserFilter(universe, user);
      currentUser := Some(user);
      products := filteredProducts;
    }

    /** `showAll`: the "All" user tab. */
    method ShowAll()
      requires Valid()
      modifies this`currentUser, this`products
      ensures Valid()
      ensures currentUser == None && products == universe
      ensures query == old(query) && currentCategory == old(currentCategory)
    {
      currentUser := None;
      products := universe;
      SubsequenceReflexive(universe);
    }

    /** The search field's `onChange` with the field's new `value`. */
    method ChangeQuery(value: string)
      requires Valid()
      modifies this`products, this`query
      ensures Valid()
      ensures products == QueryFilter(universe, value) && query == value
      ensures currentUser == old(currentUser) && currentCategory == old(currentCategory)
    {
      products := QueryFilter(universe, value);
      query := value;
    }

    /** The clear button of the search field. */
    method ClearQuery()
      requires Valid()
      modifies this`products, this`query
      ensures Valid()
      ensures query == "" && products == universe
      ensures currentUser == old(currentUser) && currentCategory == old(currentCategory)
    {
      query := "";
      products := universe;
      SubsequenceReflexive(universe);
    }

    /**
     * A click on the button of category `id`. Both tests read the selection as it
     * was when the click happened, so exactly one of the two updates is applied.
     * The displayed products are not recomputed.
     */
    method ToggleCategory(id: int)
      requires Valid()
      modifies this`currentCategory
      ensures Valid()
      ensures currentCategory == Toggle(old(currentCategory), id)
      ensures products == old(products) && currentUser == old(currentUser) && query == old(query)
    {
      var selected := currentCategory;
      ToggleNoDuplicates(selected, id);
      if id in selected {
        currentCategory := Filter(currentCategory, (x: int) => x != id);
      }
      if id !in selected {
        currentCategory := currentCategory + [id];
      }
    }

    /** "Reset all filters": clears the category selection only. */
    method ResetCategories()
      requires Valid()
      modifies this`currentCategory
      ensures Valid()
      ensures currentCategory == []
      ensures products == old(products) && currentUser == old(currentUser) && query == old(query)
    {
      currentCategory := [];
    }
  }
}
