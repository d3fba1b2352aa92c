/** The category filter of the product grid: the token `all` shows every
    product, any other token shows the products of exactly that category. */
module ProductGrid {
  import opened Sequences
  import opened Catalog

  /** The filter token that stands for every category. */
  const ALL := "all"

  /** The products the grid shows for the selected token. */
  function Filter(ps: seq<Product>, token: string): (shown: seq<Product>)
    ensures |shown| <= |ps|
  {
    if token == ALL then ps else Select(ps, HasCategory(token))
  }

  /** The token `all` shows the list as it is. */
  lemma FilterAll(ps: seq<Product>)
    ensures Filter(ps, ALL) == ps
  {
  }

  /** Any other token shows every product of exactly that category (case
      sensitive, whole string), each as often as in the list, and no other. */
  lemma FilterByCategory(ps: seq<Product>, token: string)
    requires token != ALL
    ensures forall p :: multiset(Filter(ps, token))[p] ==
                          if p.category == token then multiset(ps)[p] else 0
    ensures forall p | p in Filter(ps, token) :: p.category == token
  {
    forall p ensures multiset(Filter(ps, token))[p] ==
                       if p.category == token then multiset(ps)[p] else 0 {
      SelectCount(ps, HasCategory(token), p);
    }
  }

  /** What is shown keeps the list's order. */
  lemma FilterKeepsOrder(ps: seq<Product>, token: string)
    ensures IsSubsequence(Filter(ps, token), ps)
  {
    if token == ALL {
      SubsequenceReflexive(ps);
    } else {
      SelectIsSubsequence(ps, HasCategory(token));
    }
  }

  /** Selecting a category offered by getCategories never shows an empty grid. */
  lemma ListedCategoryShowsProducts(ps: seq<Product>, c: string)
    requires c in Categories(ps)
    ensures Filter(ps, c) != []
  {
    CategoriesComplete(ps);
    var i :| 0 <= i < |ps| && ps[i].category == c;
    if c != ALL {
      SelectNonEmpty(ps, HasCategory(c), i);
    }
  }

  /** Six products of which exactly the first two have category c. */
  lemma FilterFirstTwoOfSix(ps: seq<Product>, c: string)
    requires |ps| == 6 && c != ALL
    requires ps[0].category == c && ps[1].category == c
    requires ps[2].category != c && ps[3].category != c
    requires ps[4].category != c && ps[5].category != c
    ensures Filter(ps, c) == ps[..2]
  {
    var keep := HasCategory(c);
    assert Select(ps[6..], keep) == [];
    assert Select(ps[5..], keep) == [] by { assert ps[5..][1..] == ps[6..]; }
    assert Select(ps[4..], keep) == [] by { assert ps[4..][1..] == ps[5..]; }
    assert Select(ps[3..], keep) == [] by { assert ps[3..][1..] == ps[4..]; }
    assert Select(ps[2..], keep) == [] by { assert ps[2..][1..] == ps[3..]; }
    assert Select(ps[1..], keep) == [ps[1]] by { assert ps[1..][1..] == ps[2..]; }
    assert ps[..2] == [ps[0], ps[1]];
  }

  /** On the seed list, `all` shows all six records and `Home` exactly the
      first two (ids "1" and "2"). */
  lemma SeedFilter()
    ensures |Filter(DEFAULT_PRODUCTS, ALL)| == 6
    ensures Filter(DEFAULT_PRODUCTS, "Home") == DEFAULT_PRODUCTS[..2]
  {
    SeedIds();
    FilterFirstTwoOfSix(DEFAULT_PRODUCTS, "Home");
  }
}
