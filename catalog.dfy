/**
 * The data derivation at the top of src/App.tsx: the joins that attach each
 * category's owner and each product's category, the two product filters and
 * the update applied to the list of selected category ids.
 */
module Catalog {
  import opened Optional
  import opened Seqs
  import opened Text

  datatype User = User(id: int, name: string, sex: string)

  /** A category as the dataset supplies it. */
  datatype RawCategory = RawCategory(id: int, title: string, icon: string, ownerId: int)

  /** A category with its owner attached (`{ ...category, user }`). */
  datatype Category = Category(id: int, title: string, icon: string, ownerId: int, user: Option<User>)
  {
    /** The dataset fields, without the attached owner. */
    function Raw(): RawCategory
    {
      RawCategory(id, title, icon, ownerId)
    }
  }

  /** A product as the dataset supplies it. */
  datatype RawProduct = RawProduct(id: int, name: string, categoryId: int)

  /** A product with its category attached (`{ ...product, category }`). */
  datatype Product = Product(id: int, name: string, categoryId: int, category: Option<Category>)
  {
    function Raw(): RawProduct
    {
      RawProduct(id, name, categoryId)
    }
  }

  ghost predicate UniqueUserIds(users: seq<User>)
  {
    forall i, j :: 0 <= i < j < |users| ==> users[i].id != users[j].id
  }

  ghost predicate UniqueCategoryIds(categories: seq<RawCategory>)
  {
    forall i, j :: 0 <= i < j < |categories| ==> categories[i].id != categories[j].id
  }

  // ---------------------------------------------------------------- lookups

  /** The first user carrying `userId`, or `None` when no user does. */
  function FindUserById(users: seq<User>, userId: int): (r: Option<User>)
    ensures r.None? <==> forall u :: u in users ==> u.id != userId
    ensures r.Some? ==> r.value.id == userId
    ensures r.Some? ==> exists k :: 0 <= k < |users| && users[k] == r.value && forall j :: 0 <= j < k ==> users[j].id != userId
  {
    Find(users, (u: User) => u.id == userId)
  }

  /** With unique ids the lookup finds every user by its own id. */
  lemma FindUserByUniqueId(users: seq<User>, u: User)
    requires UniqueUserIds(users)
    requires u in users
    ensures FindUserById(users, u.id) == Some(u)
  {
  }

  /** The first prepared category carrying `categoryId`, or `None` when no category does. */
  function FindCategoryById(categories: seq<Category>, categoryId: int): (r: Option<Category>)
    ensures r.None? <==> forall c :: c in categories ==> c.id != categoryId
    ensures r.Some? ==> r.value.id == categoryId
    ensures r.Some? ==> exists k :: 0 <= k < |categories| && categories[k] == r.value && forall j :: 0 <= j < k ==> categories[j].id != categoryId
  {
    Find(categories, (c: Category) => c.id == categoryId)
  }

  // ------------------------------------------------------------- enrichment

  function EnrichCategory(c: RawCategory, users: seq<User>): Category
  {
    Category(c.id, c.title, c.icon, c.ownerId, FindUserById(users, c.ownerId))
  }

  /**
   * `preparedCategories`: one category per dataset category, in the same order, each
   * keeping its dataset fields and carrying the user found by its `ownerId`.
   */
  function PrepareCategories(categories: seq<RawCategory>, users: seq<User>): (r: seq<Category>)
    ensures |r| == |categories|
    ensures forall i :: 0 <= i < |r| ==> r[i].Raw() == categories[i]
    ensures forall i :: 0 <= i < |r| ==> r[i].user == FindUserById(users, categories[i].ownerId)
  {
    seq(|categories|, i requires 0 <= i < |categories| => EnrichCategory(categories[i], users))
  }

  function EnrichProduct(p: RawProduct, categories: seq<Category>): Product
  {
    Product(p.id, p.name, p.categoryId, FindCategoryById(categories, p.categoryId))
  }

  /**
   * `preparedProducts`: one product per dataset product, in the same order, each
   * keeping its dataset fields and carrying the prepared category found by its `categoryId`.
   */
  function PrepareProducts(products: seq<RawProduct>, categories: seq<Category>): (r: seq<Product>)
    ensures |r| == |products|
    ensures forall i :: 0 <= i < |r| ==> r[i].Raw() == products[i]
    ensures forall i :: 0 <= i < |r| ==> r[i].category == FindCategoryById(categories, products[i].categoryId)
  {
    seq(|products|, i requires 0 <= i < |products| => EnrichProduct(products[i], categories))
  }

  /** `product.category?.user?.id`. */
  function OwnerId(p: Product): Option<int>
  {
    match p.category
    case None => None
    case Some(c) =>
      match c.user
      case None => None
      case Some(u) => Some(u.id)
  }

  /** The dataset category `j` is owned by `k` and a user with id `k` exists. */
  ghost predicate CategoryOwnedBy(categories: seq<RawCategory>, users: seq<User>, j: int, k: int)
  {
    0 <= j < |categories| && categories[j].ownerId == k && exists u :: u in users && u.id == k
  }

  /**
   * After both joins, a product is owned by user `k` exactly when its dataset
   * category is owned by `k` and a user with id `k` exists (category ids unique).
   */
  lemma ProductOwner(users: seq<User>, categories: seq<RawCategory>, products: seq<RawProduct>, i: int, k: int)
    requires UniqueCategoryIds(categories)
    requires 0 <= i < |products|
    ensures OwnerId(PrepareProducts(products, PrepareCategories(categories, users))[i]) == Some(k) <==>
      exists j :: CategoryOwnedBy(categories, users, j, k) && categories[j].id == products[i].categoryId
  {
    var p := PrepareProducts(products, PrepareCategories(categories, users))[i];
    if OwnerId(p) == Some(k) {
      var j := OwnerFromProduct(users, categories, products, i, k);
    }
    if exists j :: CategoryOwnedBy(categories, users, j, k) && categories[j].id == products[i].categoryId {
      var j :| CategoryOwnedBy(categories, users, j, k) && categories[j].id == products[i].categoryId;
      ProductFromOwner(users, categories, products, i, j, k);
    }
  }

  lemma OwnerFromProduct(users: seq<User>, categories: seq<RawCategory>, products: seq<RawProduct>, i: int, k: int)
    returns (j: int)
    requires 0 <= i < |products|
    requires OwnerId(PrepareProducts(products, PrepareCategories(categories, users))[i]) == Some(k)
    ensures CategoryOwnedBy(categories, users, j, k) && categories[j].id == products[i].categoryId
  {
    var prepared := PrepareCategories(categories, users);
    var c := PrepareProducts(products, prepared)[i].category.value;
    j :| 0 <= j < |prepared| && prepared[j] == c;
    assert categories[j] == c.Raw();
  }

  lemma ProductFromOwner(users: seq<User>, categories: seq<RawCategory>, products: seq<RawProduct>, i: int, j: int, k: int)
    requires UniqueCategoryIds(categories)
    requires 0 <= i < |products|
    requires CategoryOwnedBy(categories, users, j, k) && categories[j].id == products[i].categoryId
    ensures OwnerId(PrepareProducts(products, PrepareCategories(categories, users))[i]) == Some(k)
  {
    var prepared := PrepareCategories(categories, users);
    var p := PrepareProducts(products, prepared)[i];
    assert prepared[j].Raw() == categories[j];
    var c := p.category.value;
    var m :| 0 <= m < |prepared| && prepared[m] == c && forall l :: 0 <= l < m ==> prepared[l].id != products[i].categoryId;
    assert prepared[m].Raw() == categories[m];
    assert m == j;
  }

  // ----------------------------------------------------------------- filters

  /** The test of `handleUserFilter`: `product.category?.user?.id === user.id`. */
  predicate OwnedBy(p: Product, userId: int)
  {
    OwnerId(p) == Some(userId)
  }

  /**
   * The list `handleUserFilter` displays: the products of the universe whose category
   * and category owner are both present and whose owner is `user`, in universe order.
   */
  function UserFilter(universe: seq<Product>, user: User): (r: seq<Product>)
    ensures IsSubsequence(r, universe)
    ensures forall p :: p in r <==>
      p in universe && p.category.Some? && p.category.value.user.Some? && p.category.value.user.value.id == user.id
    ensures forall p :: multiset(r)[p] == if OwnedBy(p, user.id) then multiset(universe)[p] else 0
  {
    FilterCounts(universe, (p: Product) => OwnedBy(p, user.id));
    Filter(universe, (p: Product) => OwnedBy(p, user.id))
  }

  /** The test of `handleQueryFilter`, with a missing title or owner name never matching. */
  predicate MatchesQuery(p: Product, search: string)
  {
    var q := Lower(search);
    Includes(Lower(p.name), q)
    || (p.category.Some? && Includes(Lower(p.category.value.title), q))
    || (p.category.Some? && p.category.value.user.Some? && Includes(Lower(p.category.value.user.value.name), q))
  }

  /** The same test stated with the reference substring relation. */
  ghost predicate SearchHit(p: Product, search: string)
  {
    var q := Lower(search);
    IsSubstring(q, Lower(p.name))
    || (p.category.Some? && IsSubstring(q, Lower(p.category.value.title)))
    || (p.category.Some? && p.category.value.user.Some? && IsSubstring(q, Lower(p.category.value.user.value.name)))
  }

  lemma MatchesQueryIsSearchHit(search: string)
    ensures forall p :: MatchesQuery(p, search) <==> SearchHit(p, search)
  {
    forall p: Product ensures MatchesQuery(p, search) <==> SearchHit(p, search) {
      var q := Lower(search);
      IncludesIsSubstring(Lower(p.name), q);
      if p.category.Some? {
        IncludesIsSubstring(Lower(p.category.value.title), q);
        if p.category.value.user.Some? {
          IncludesIsSubstring(Lower(p.category.value.user.value.name), q);
        }
      }
    }
  }

  /**
   * `handleQueryFilter(search)`: the products of the universe in whose lower-cased
   * name, category title or owner name the lower-cased query occurs, in universe order.
   */
  function QueryFilter(universe: seq<Product>, search: string): (r: seq<Product>)
    ensures IsSubsequence(r, universe)
    ensures forall p :: p in r <==> p in universe && SearchHit(p, search)
    ensures forall p :: multiset(r)[p] == if SearchHit(p, search) then multiset(universe)[p] else 0
  {
    MatchesQueryIsSearchHit(search);
    FilterCounts(universe, (p: Product) => MatchesQuery(p, search));
    Filter(universe, (p: Product) => MatchesQuery(p, search))
  }

  /** The empty query keeps the whole universe. */
  lemma QueryEmptyKeepsAll(universe: seq<Product>)
    ensures QueryFilter(universe, "") == universe
  {
    FilterKeepsAll(universe, (p: Product) => MatchesQuery(p, ""));
  }

  /** The search ignores the case of the query. */
  lemma QueryIgnoresCase(universe: seq<Product>, search: string)
    ensures QueryFilter(universe, Lower(search)) == QueryFilter(universe, search)
  {
    LowerIdempotent(search);
    FilterCongruent(universe, (p: Product) => MatchesQuery(p, Lower(search)), (p: Product) => MatchesQuery(p, search));
  }

  /** Extending the query (so that the old one occurs in it) never brings a product back. */
  lemma QueryNarrows(universe: seq<Product>, shorter: string, longer: string)
    requires IsSubstring(shorter, longer)
    ensures forall p :: p in QueryFilter(universe, longer) ==> p in QueryFilter(universe, shorter)
  {
    LowerKeepsSubstring(shorter, longer);
    forall p | p in QueryFilter(universe, longer) ensures SearchHit(p, shorter) {
      var q, q' := Lower(shorter), Lower(longer);
      if IsSubstring(q', Lower(p.name)) {
        SubstringTransitive(q, q', Lower(p.name));
      } else if p.category.Some? && IsSubstring(q', Lower(p.category.value.title)) {
        SubstringTransitive(q, q', Lower(p.category.value.title));
      } else {
        SubstringTransitive(q, q', Lower(p.category.value.user.value.name));
      }
    }
  }

  // -------------------------------------------------------- category toggle

  /**
   * The selected-category update of the category buttons: an absent id is appended
   * at the end, a present id has every occurrence removed and the rest kept in order.
   */
  function Toggle(ids: seq<int>, id: int): (r: seq<int>)
    ensures id !in ids ==> r == ids + [id]
    ensures id in ids ==> IsSubsequence(r, ids) && forall x :: x != id ==> multiset(r)[x] == multiset(ids)[x]
    ensures forall x :: x in r <==> (x in ids <==> x != id)
  {
    FilterCounts(ids, (x: int) => x != id);
    if id in ids then Filter(ids, (x: int) => x != id) else ids + [id]
  }

  /** Toggling keeps the selection free of duplicates. */
  lemma ToggleNoDuplicates(ids: seq<int>, id: int)
    requires NoDuplicates(ids)
    ensures NoDuplicates(Toggle(ids, id))
  {
    if id in ids {
      FilterNoDuplicates(ids, (x: int) => x != id);
    }
  }

  /** Toggling an unselected id twice restores the exact selection. */
  lemma ToggleTwiceRestores(ids: seq<int>, id: int)
    requires id !in ids
    ensures Toggle(Toggle(ids, id), id) == ids
  {
    var f := (x: int) => x != id;
    FilterConcat(ids, [id], f);
    FilterKeepsAll(ids, f);
  }

  /** Toggling a selected id twice keeps the selected set but moves the id to the end. */
  lemma ToggleTwiceSelected(ids: seq<int>, id: int)
    requires id in ids
    ensures Toggle(Toggle(ids, id), id) == Filter(ids, (x: int) => x != id) + [id]
    ensures forall x :: x in Toggle(Toggle(ids, id), id) <==> x in ids
  {
  }
}
