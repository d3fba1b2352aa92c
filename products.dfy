/** The product catalog: the seed records, the in-memory `products` list,
    and its persistence to a local object store keyed by `id`.

    The object store is a map from id to record. Every store operation is
    given a `Faults` value that says whether opening the database fails and
    whether a request of the transaction fails, so that the success and
    error paths the model distinguishes can be stated. A transaction that fails is
    rolled back: the store keeps the state it had before the transaction. */
module Catalog {
  import opened Sequences

  /** A catalog entry (the seed records' `price` is not modelled). */
  datatype Product = Product(
    id: string,
    title: string,
    description: string,
    imageUrl: string,
    externalUrl: string,
    category: string)

  datatype Option<T> = None | Some(value: T)

  /** Why a store operation was rejected. */
  datatype StoreError =
    | OpenFailed       // the database could not be opened
    | ConstraintError  // a keyed `add` met a key that is already in the store
    | RequestFailed    // any other failed request or transaction

  datatype Result<T> = Ok(value: T) | Err(error: StoreError)

  /** How a write transaction ended. */
  datatype Outcome = Saved | NotSaved(error: StoreError)

  /** Which steps of one store operation fail. */
  datatype Faults = Faults(openFails: bool, requestFails: bool)

  const NO_FAULTS := Faults(false, false)

  /** The six records that seed an empty store. */
  const DEFAULT_PRODUCTS: seq<Product> :=
    [
      Product("1", "Handcrafted Ceramic Mug",
        "A beautiful handcrafted ceramic mug, perfect for your morning coffee or evening tea. Each piece is unique with slight variations in the glaze.",
        "https://images.unsplash.com/photo-1618160702438-9b02ab6515c9",
        "https://etsy.com", "Home"),
      Product("2", "Minimalist Desk Lamp",
        "This sleek desk lamp adds a modern touch to any workspace. Features adjustable brightness and color temperature settings.",
        "https://images.unsplash.com/photo-1721322800607-8c38375eef04",
        "https://amazon.com", "Home"),
      Product("3", "Hand-Knitted Wool Scarf",
        "Stay warm and stylish with this premium wool scarf. Hand-knitted with care using sustainable materials.",
        "https://images.unsplash.com/photo-1582562124811-c09040d0a901",
        "https://etsy.com", "Accessories"),
      Product("4", "Organic Cotton T-shirt",
        "Comfortable everyday t-shirt made from 100% organic cotton. Available in multiple colors and sizes.",
        "https://placehold.co/600x600?text=T-Shirt",
        "https://amazon.com", "Clothing"),
      Product("5", "Artisanal Wooden Cutting Board",
        "This handcrafted cutting board is made from sustainably sourced hardwood. Perfect for food preparation or as a serving platter.",
        "https://placehold.co/600x600?text=Cutting+Board",
        "https://etsy.com", "Kitchen"),
      Product("6", "Digital Art Print",
        "Beautiful digital artwork printed on premium paper. Available in multiple sizes to fit your space perfectly.",
        "https://placehold.co/600x600?text=Art+Print",
        "https://gumroad.com", "Art")
    ]

  // ---------------------------------------------------------------------
  // Ids and the keyed store

  function IdSet(ps: seq<Product>): (ids: set<string>) {
    set p | p in ps :: p.id
  }

  ghost predicate UniqueIds(ps: seq<Product>) {
    forall i, j | 0 <= i < j < |ps| :: ps[i].id != ps[j].id
  }

  /** The store's key path is `id`: every record sits under its own id. */
  ghost predicate WellKeyed(m: map<string, Product>) {
    forall k | k in m :: m[k].id == k
  }

  /** `ps` lists the store `m`: every stored record exactly once, and nothing else. */
  ghost predicate Lists(ps: seq<Product>, m: map<string, Product>) {
    && UniqueIds(ps)
    && m.Keys == IdSet(ps)
    && forall i | 0 <= i < |ps| :: ps[i].id in m && m[ps[i].id] == ps[i]
  }

  function HasId(id: string): (matches: Product -> bool) {
    (p: Product) => p.id == id
  }

  function LacksId(id: string): (differs: Product -> bool) {
    (p: Product) => p.id != id
  }

  function HasCategory(c: string): (inCategory: Product -> bool) {
    (p: Product) => p.category == c
  }

  /** Keyed `add` of each record of `ps` in turn, starting from `start`, inside
      one transaction: the first record whose id is already present fails the
      transaction. */
  function AddAll(start: map<string, Product>, ps: seq<Product>): (staged: Option<map<string, Product>>)
    decreases |ps|
  {
    if ps == [] then Some(start)
    else if ps[0].id in start then None
    else AddAll(start[ps[0].id := ps[0]], ps[1..])
  }

  /** A write transaction over the store `stored`: open the database, start
      from `start`, add every record of `ps`, commit. Any failure leaves the
      store as it was. */
  function Commit(stored: map<string, Product>, start: map<string, Product>,
                  ps: seq<Product>, faults: Faults): (r: (Outcome, map<string, Product>))
  {
    if faults.openFails then (NotSaved(OpenFailed), stored)
    else
      match AddAll(start, ps)
      case None => (NotSaved(ConstraintError), stored)
      case Some(m) =>
        if faults.requestFails then (NotSaved(RequestFailed), stored) else (Saved, m)
  }

  /** `saveProducts`: clear the store, then add every in-memory record. */
  function Save(stored: map<string, Product>, ps: seq<Product>, faults: Faults): (r: (Outcome, map<string, Product>)) {
    Commit(stored, map[], ps, faults)
  }

  /** `saveInitialProducts`: add the seed records to the store as it is. */
  function Seed(stored: map<string, Product>, faults: Faults): (r: (Outcome, map<string, Product>)) {
    Commit(stored, stored, DEFAULT_PRODUCTS, faults)
  }

  lemma {:induction false} AddAllSucceedsIff(start: map<string, Product>, ps: seq<Product>)
    ensures AddAll(start, ps).Some? <==> UniqueIds(ps) && IdSet(ps) !! start.Keys
    decreases |ps|
  {
    if ps != [] {
      var p, rest := ps[0], ps[1..];
      assert ps == [p] + rest;
      assert IdSet(ps) == {p.id} + IdSet(rest);
      AddAllSucceedsIff(start[p.id := p], rest);
      if UniqueIds(ps) && IdSet(ps) !! start.Keys {
        assert UniqueIds(rest) by {
          forall i, j | 0 <= i < j < |rest| ensures rest[i].id != rest[j].id {
            assert rest[i] == ps[i + 1] && rest[j] == ps[j + 1];
          }
        }
      }
      if AddAll(start, ps).Some? {
        assert p.id !in start;
        assert UniqueIds(ps) by {
          forall i, j | 0 <= i < j < |ps| ensures ps[i].id != ps[j].id {
            if i == 0 {
              assert ps[j] in rest;
            } else {
              assert ps[i] == rest[i - 1] && ps[j] == rest[j - 1];
            }
          }
        }
      }
    }
  }

  /** What a successful AddAll holds: the starting records, plus each added
      record under its own id. */
  lemma {:induction false} AddAllContents(start: map<string, Product>, ps: seq<Product>)
    requires AddAll(start, ps).Some?
    ensures AddAll(start, ps).value.Keys == start.Keys + IdSet(ps)
    ensures forall k | k in start :: AddAll(start, ps).value[k] == start[k]
    ensures forall i | 0 <= i < |ps| :: AddAll(start, ps).value[ps[i].id] == ps[i]
    decreases |ps|
  {
    if ps != [] {
      var p, rest := ps[0], ps[1..];
      assert ps == [p] + rest;
      assert IdSet(ps) == {p.id} + IdSet(rest);
      var next := start[p.id := p];
      AddAllContents(next, rest);
      var m := AddAll(start, ps).value;
      forall i | 0 <= i < |ps| ensures m[ps[i].id] == ps[i] {
        if i > 0 {
          assert ps[i] == rest[i - 1];
        }
      }
    }
  }

  /** A successful AddAll into a well-keyed store leaves it well-keyed. */
  lemma AddAllWellKeyed(start: map<string, Product>, ps: seq<Product>)
    requires WellKeyed(start) && AddAll(start, ps).Some?
    ensures WellKeyed(AddAll(start, ps).value)
  {
    AddAllContents(start, ps);
    var m := AddAll(start, ps).value;
    forall k | k in m ensures m[k].id == k {
      if k !in start {
        var q :| q in ps && q.id == k;
        var i :| 0 <= i < |ps| && ps[i] == q;
      }
    }
  }

  /** Adding records with distinct ids to an empty store yields exactly those
      records, each under its own id. */
  lemma AddAllToEmptyLists(ps: seq<Product>)
    requires UniqueIds(ps)
    ensures AddAll(map[], ps).Some?
    ensures Lists(ps, AddAll(map[], ps).value)
  {
    AddAllSucceedsIff(map[], ps);
    AddAllContents(map[], ps);
  }

  /** saveProducts succeeds exactly when the database opens, no request fails
      and the in-memory ids are distinct (the keyed `add` rejects a repeated
      id); it then holds exactly the in-memory records. Otherwise the store is
      untouched: even the `clear` is rolled back. */
  lemma SaveSpec(stored: map<string, Product>, ps: seq<Product>, faults: Faults)
    ensures Save(stored, ps, faults).0 == Saved <==>
              !faults.openFails && !faults.requestFails && UniqueIds(ps)
    ensures Save(stored, ps, faults).0 == NotSaved(ConstraintError) <==>
              !faults.openFails && !UniqueIds(ps)
    ensures Save(stored, ps, faults).0 == Saved ==> Lists(ps, Save(stored, ps, faults).1)
    ensures Save(stored, ps, faults).0 != Saved ==> Save(stored, ps, faults).1 == stored
  {
    AddAllSucceedsIff(map[], ps);
    if UniqueIds(ps) {
      AddAllToEmptyLists(ps);
    }
  }

  /** A listing of a store is unique up to order: two listings of the same
      store have the same length and hold the same records. */
  lemma ListingsAgree(a: seq<Product>, b: seq<Product>, m: map<string, Product>)
    requires Lists(a, m) && Lists(b, m)
    ensures |a| == |b|
    ensures multiset(a) == multiset(b)
  {
    forall x ensures multiset(a)[x] == multiset(b)[x] {
      ListedOnce(a, m, x);
      ListedOnce(b, m, x);
    }
    assert multiset(a) == multiset(b);
    assert |multiset(a)| == |a| && |multiset(b)| == |b|;
  }

  /** In a listing, a record occurs once when the store holds it under its
      id, and not at all otherwise. */
  lemma ListedOnce(ps: seq<Product>, m: map<string, Product>, x: Product)
    requires Lists(ps, m)
    ensures multiset(ps)[x] == if x.id in m && m[x.id] == x then 1 else 0
  {
    UniqueIdsCount(ps, x);
    if x.id in m && m[x.id] == x {
      var q :| q in ps && q.id == x.id;
      var i :| 0 <= i < |ps| && ps[i] == q;
      assert x in ps;
    }
  }

  /** With distinct ids, no record occurs twice. */
  lemma {:induction false} UniqueIdsCount(ps: seq<Product>, x: Product)
    requires UniqueIds(ps)
    ensures multiset(ps)[x] == if x in ps then 1 else 0
    decreases |ps|
  {
    if ps != [] {
      var rest := ps[1..];
      assert ps == [ps[0]] + rest;
      assert UniqueIds(rest) by {
        forall i, j | 0 <= i < j < |rest| ensures rest[i].id != rest[j].id {
          assert rest[i] == ps[i + 1] && rest[j] == ps[j + 1];
        }
      }
      UniqueIdsCount(rest, x);
    }
  }

  // ---------------------------------------------------------------------
  // Pure parts of the in-memory operations

  /** The `map` of updateProduct: every record with the updated id becomes the
      update, every other record stays. */
  function Replaced(ps: seq<Product>, u: Product): (r: seq<Product>)
    ensures |r| == |ps|
    ensures forall i | 0 <= i < |ps| :: r[i] == if ps[i].id == u.id then u else ps[i]
    decreases |ps|
  {
    if ps == [] then []
    else [if ps[0].id == u.id then u else ps[0]] + Replaced(ps[1..], u)
  }

  /** The `filter` of deleteProduct: the records whose id differs. */
  function Without(ps: seq<Product>, id: string): (kept: seq<Product>) {
    Select(ps, LacksId(id))
  }

  /** Updating an id that no record has is a silent no-op. */
  lemma ReplacedMissingIsNoOp(ps: seq<Product>, u: Product)
    requires u.id !in IdSet(ps)
    ensures Replaced(ps, u) == ps
  {
    var r := Replaced(ps, u);
    forall i | 0 <= i < |ps| ensures r[i] == ps[i] {
      assert ps[i] in ps;
    }
  }

  /** An update keeps every id in place, so it neither creates nor repairs a
      repeated id. */
  lemma ReplacedKeepsIds(ps: seq<Product>, u: Product)
    ensures forall i | 0 <= i < |ps| :: Replaced(ps, u)[i].id == ps[i].id
    ensures UniqueIds(Replaced(ps, u)) <==> UniqueIds(ps)
  {
  }

  /** deleteProduct keeps exactly the records with another id, in order. */
  lemma WithoutSpec(ps: seq<Product>, id: string)
    ensures forall x :: multiset(Without(ps, id))[x] == if x.id != id then multiset(ps)[x] else 0
    ensures IsSubsequence(Without(ps, id), ps)
    ensures id !in IdSet(Without(ps, id))
  {
    forall x ensures multiset(Without(ps, id))[x] == if x.id != id then multiset(ps)[x] else 0 {
      SelectCount(ps, LacksId(id), x);
    }
    SelectIsSubsequence(ps, LacksId(id));
  }

  /** Deleting twice is deleting once. */
  lemma WithoutIdempotent(ps: seq<Product>, id: string)
    ensures Without(Without(ps, id), id) == Without(ps, id)
  {
    SelectIdempotent(ps, LacksId(id));
  }

  /** Deleting keeps distinct ids distinct. */
  lemma {:induction false} WithoutKeepsUniqueIds(ps: seq<Product>, id: string)
    requires UniqueIds(ps)
    ensures UniqueIds(Without(ps, id))
    decreases |ps|
  {
    if ps != [] {
      var rest := ps[1..];
      assert UniqueIds(rest) by {
        forall i, j | 0 <= i < j < |rest| ensures rest[i].id != rest[j].id {
          assert rest[i] == ps[i + 1] && rest[j] == ps[j + 1];
        }
      }
      WithoutKeepsUniqueIds(rest, id);
      var tail := Without(rest, id);
      if ps[0].id != id {
        var r := Without(ps, id);
        assert r == [ps[0]] + tail;
        forall i, j | 0 <= i < j < |r| ensures r[i].id != r[j].id {
          if i == 0 {
            assert r[j] == tail[j - 1] && tail[j - 1] in tail;
            var k :| 0 <= k < |rest| && rest[k] == r[j];
            assert ps[k + 1] == r[j];
          }
        }
      }
    }
  }

  // ---------------------------------------------------------------------
  // Categories

  /** The distinct categories of `ps` in order of first occurrence: what the
      insertion-ordered `Set` of getCategories holds after visiting `ps`. */
  function Categories(ps: seq<Product>): (cs: seq<string>)
    decreases |ps|
  {
    if ps == [] then []
    else
      var seen := Categories(ps[..|ps| - 1]);
      var c := ps[|ps| - 1].category;
      if c in seen then seen else seen + [c]
  }

  /** Position of the first record of category `c`, or `|ps|` if none. */
  function FirstOfCategory(ps: seq<Product>, c: string): (k: nat) {
    FirstIndexWhere(ps, HasCategory(c))
  }

  /** Each category occurring in `ps` is returned, and only those. */
  lemma {:induction false} CategoriesComplete(ps: seq<Product>)
    ensures forall c :: c in Categories(ps) <==> exists i | 0 <= i < |ps| :: ps[i].category == c
    decreases |ps|
  {
    if ps != [] {
      var init := ps[..|ps| - 1];
      CategoriesComplete(init);
      forall c ensures c in Categories(ps) <==> exists i | 0 <= i < |ps| :: ps[i].category == c {
        if c in Categories(init) {
          var i :| 0 <= i < |init| && init[i].category == c;
          assert ps[i].category == c;
        }
        if exists i | 0 <= i < |ps| :: ps[i].category == c {
          var i :| 0 <= i < |ps| && ps[i].category == c;
          if i < |init| {
            assert init[i].category == c;
          }
        }
      }
    }
  }

  /** No category is returned twice. */
  lemma {:induction false} CategoriesDistinct(ps: seq<Product>)
    ensures Distinct(Categories(ps))
    decreases |ps|
  {
    if ps != [] {
      CategoriesDistinct(ps[..|ps| - 1]);
    }
  }

  /** Categories come in the order in which their first record occurs. */
  lemma {:induction false} CategoriesInFirstSeenOrder(ps: seq<Product>)
    ensures forall i, j | 0 <= i < j < |Categories(ps)| ::
              FirstOfCategory(ps, Categories(ps)[i]) < FirstOfCategory(ps, Categories(ps)[j])
    ensures forall i | 0 <= i < |Categories(ps)| :: FirstOfCategory(ps, Categories(ps)[i]) < |ps|
    decreases |ps|
  {
    if ps != [] {
      var init := ps[..|ps| - 1];
      var x := ps[|ps| - 1];
      assert ps == init + [x];
      CategoriesInFirstSeenOrder(init);
      var old_cats := Categories(init);
      var cats := Categories(ps);
      forall i | 0 <= i < |old_cats|
        ensures FirstOfCategory(ps, old_cats[i]) == FirstOfCategory(init, old_cats[i])
      {
        FirstIndexAppend(init, x, HasCategory(old_cats[i]));
      }
      if x.category !in old_cats {
        CategoriesComplete(init);
        FirstIndexAppend(init, x, HasCategory(x.category));
        assert cats == old_cats + [x.category];
        assert FirstOfCategory(ps, x.category) == |init|;
      }
    }
  }

  // ---------------------------------------------------------------------
  // The seed list

  /** The seed list has six records with ids "1" to "6". */
  lemma SeedIds()
    ensures |DEFAULT_PRODUCTS| == 6
    ensures DEFAULT_PRODUCTS[0].id == "1" && DEFAULT_PRODUCTS[1].id == "2" && DEFAULT_PRODUCTS[2].id == "3"
    ensures DEFAULT_PRODUCTS[3].id == "4" && DEFAULT_PRODUCTS[4].id == "5" && DEFAULT_PRODUCTS[5].id == "6"
    ensures UniqueIds(DEFAULT_PRODUCTS)
  {
    SixUniqueIds(DEFAULT_PRODUCTS);
  }

  lemma SixUniqueIds(ps: seq<Product>)
    requires |ps| == 6
    requires ps[0].id == "1" && ps[1].id == "2" && ps[2].id == "3"
    requires ps[3].id == "4" && ps[4].id == "5" && ps[5].id == "6"
    ensures UniqueIds(ps)
  {
  }

  /** Visiting one more record adds its category when it is new. */
  lemma CategoriesSnoc(ps: seq<Product>, x: Product)
    ensures Categories(ps + [x]) ==
              if x.category in Categories(ps) then Categories(ps) else Categories(ps) + [x.category]
  {
    assert (ps + [x])[..|ps|] == ps;
  }

  /** Categories of six records whose categories are c1, c1, c2, c3, c4, c5
      (five distinct names), one visit at a time. */
  lemma CategoriesOfSix(ps: seq<Product>, c1: string, c2: string, c3: string, c4: string, c5: string)
    requires Distinct([c1, c2, c3, c4, c5])
    requires |ps| == 6
    requires ps[0].category == c1 && ps[1].category == c1 && ps[2].category == c2
    requires ps[3].category == c3 && ps[4].category == c4 && ps[5].category == c5
    ensures Categories(ps) == [c1, c2, c3, c4, c5]
  {
    var cs := [c1, c2, c3, c4, c5];
    assert ps[..1] == [] + [ps[0]];
    CategoriesSnoc([], ps[0]);
    assert ps[..2] == ps[..1] + [ps[1]];
    CategoriesSnoc(ps[..1], ps[1]);
    assert ps[..3] == ps[..2] + [ps[2]];
    CategoriesSnoc(ps[..2], ps[2]);
    assert cs[0] != cs[1];
    CategoriesOfLastThree(ps, cs);
  }

  lemma CategoriesOfLastThree(ps: seq<Product>, cs: seq<string>)
    requires |ps| == 6 && |cs| == 5 && Distinct(cs)
    requires Categories(ps[..3]) == cs[..2]
    requires ps[3].category == cs[2] && ps[4].category == cs[3] && ps[5].category == cs[4]
    ensures Categories(ps) == cs
  {
    assert ps[..4] == ps[..3] + [ps[3]];
    CategoriesSnoc(ps[..3], ps[3]);
    assert Categories(ps[..4]) == cs[..3];
    assert ps[..5] == ps[..4] + [ps[4]];
    CategoriesSnoc(ps[..4], ps[4]);
    assert Categories(ps[..5]) == cs[..4];
    assert ps == ps[..5] + [ps[5]];
    CategoriesSnoc(ps[..5], ps[5]);
  }

  /** The seed list's categories, in first-seen order. */
  lemma SeedCategories()
    ensures Categories(DEFAULT_PRODUCTS) == ["Home", "Accessories", "Clothing", "Kitchen", "Art"]
  {
    CategoriesOfSix(DEFAULT_PRODUCTS, "Home", "Accessories", "Clothing", "Kitchen", "Art");
  }

  /** Seeding an empty store stores exactly the seed records, unless the
      seeding transaction fails, in which case the store stays empty. */
  lemma SeedIntoEmptyStore(faults: Faults)
    ensures Seed(map[], faults).0 == Saved <==> !faults.openFails && !faults.requestFails
    ensures Seed(map[], faults).0 == Saved ==> Lists(DEFAULT_PRODUCTS, Seed(map[], faults).1)
    ensures Seed(map[], faults).0 != Saved ==> Seed(map[], faults).1 == map[]
  {
    SeedIds();
    AddAllToEmptyLists(DEFAULT_PRODUCTS);
  }

  // ---------------------------------------------------------------------
  // Round trips through the store

  /** Adding a record with a new id and saving stores it; any later listing
      of the store holds it exactly once. */
  lemma AddThenReload(stored: map<string, Product>, ps: seq<Product>, p: Product)
    requires UniqueIds(ps) && p.id !in IdSet(ps)
    ensures Save(stored, ps + [p], NO_FAULTS).0 == Saved
    ensures forall listing | Lists(listing, Save(stored, ps + [p], NO_FAULTS).1) ::
              multiset(listing)[p] == 1
  {
    var qs := ps + [p];
    assert UniqueIds(qs) by {
      forall i, j | 0 <= i < j < |qs| ensures qs[i].id != qs[j].id {
        assert qs[i] == ps[i] && ps[i] in ps;
        if j < |ps| {
          assert qs[j] == ps[j];
        }
      }
    }
    SaveSpec(stored, qs, NO_FAULTS);
    var m := Save(stored, qs, NO_FAULTS).1;
    assert qs[|ps|] == p;
    forall listing | Lists(listing, m) ensures multiset(listing)[p] == 1 {
      ListedOnce(listing, m, p);
    }
  }

  /** Adding a record whose id is already in memory makes every save fail with
      a ConstraintError and leave the store as it was. */
  lemma AddDuplicateBlocksSave(stored: map<string, Product>, ps: seq<Product>, p: Product, faults: Faults)
    requires p.id in IdSet(ps) && !faults.openFails
    ensures Save(stored, ps + [p], faults) == (NotSaved(ConstraintError), stored)
  {
    var qs := ps + [p];
    var q :| q in ps && q.id == p.id;
    var i :| 0 <= i < |ps| && ps[i] == q;
    assert qs[i].id == qs[|ps|].id;
    SaveSpec(stored, qs, faults);
  }

  /** Updating a stored id and saving makes the store hold the update under
      that id, and every other record as before. */
  lemma UpdateThenReload(stored: map<string, Product>, ps: seq<Product>, u: Product)
    requires UniqueIds(ps) && u.id in IdSet(ps)
    ensures Save(stored, Replaced(ps, u), NO_FAULTS).0 == Saved
    ensures u.id in Save(stored, Replaced(ps, u), NO_FAULTS).1
    ensures Save(stored, Replaced(ps, u), NO_FAULTS).1[u.id] == u
    ensures forall i | 0 <= i < |ps| && ps[i].id != u.id ::
              && ps[i].id in Save(stored, Replaced(ps, u), NO_FAULTS).1
              && Save(stored, Replaced(ps, u), NO_FAULTS).1[ps[i].id] == ps[i]
  {
    ReplacedKeepsIds(ps, u);
    var r := Replaced(ps, u);
    SaveSpec(stored, r, NO_FAULTS);
    var q :| q in ps && q.id == u.id;
    var k :| 0 <= k < |ps| && ps[k] == q;
    assert r[k] == u;
  }

  /** Deleting an id and saving leaves no record under it. */
  lemma DeleteThenReload(stored: map<string, Product>, ps: seq<Product>, id: string)
    requires UniqueIds(ps)
    ensures Save(stored, Without(ps, id), NO_FAULTS).0 == Saved
    ensures id !in Save(stored, Without(ps, id), NO_FAULTS).1
  {
    WithoutKeepsUniqueIds(ps, id);
    WithoutSpec(ps, id);
    SaveSpec(stored, Without(ps, id), NO_FAULTS);
  }

  // ---------------------------------------------------------------------
  // Loop helpers

  /** The keyed `add` loop of a write transaction. */
  method StageAdds(start: map<string, Product>, ps: seq<Product>) returns (staged: Option<map<string, Product>>)
    ensures staged == AddAll(start, ps)
  {
    var m := start;
    var i := 0;
    while i < |ps|
      invariant 0 <= i <= |ps|
      invariant AddAll(start, ps) == AddAll(m, ps[i..])
    {
      assert ps[i..][1..] == ps[i + 1..];
      if ps[i].id in m {
        return None;
      }
      m := m[ps[i].id := ps[i]];
      i := i + 1;
    }
    return Some(m);
  }

  // ---------------------------------------------------------------------
  // The catalog state

  /** The module-level `products` list together with the object store. */
  class Catalog {
    var products: seq<Product>
    var store: map<string, Product>

    ghost predicate Valid()
      reads this
    {
      WellKeyed(store)
    }

    /** Module load: `products` starts empty; the store holds what an earlier
        session persisted. */
    constructor (persisted: map<string, Product>)
      requires WellKeyed(persisted)
      ensures Valid()
      ensures products == [] && store == persisted
    {
      products := [];
      store := persisted;
    }

    /** The object store's `getAll`: every stored record once, in no
        particular order. */
    method GetAll() returns (listed: seq<Product>)
      requires Valid()
      ensures Lists(listed, store)
    {
      listed := [];
      var pending := store.Keys;
      while pending != {}
        invariant pending <= store.Keys
        invariant UniqueIds(listed)
        invariant IdSet(listed) == store.Keys - pending
        invariant forall i | 0 <= i < |listed| :: listed[i].id in store && store[listed[i].id] == listed[i]
        decreases pending
      {
        var k :| k in pending;
        var p := store[k];
        assert p.id == k;
        assert IdSet(listed + [p]) == IdSet(listed) + {k};
        listed := listed + [p];
        pending := pending - {k};
      }
    }

    /** saveProducts. */
    method SaveProducts(faults: Faults) returns (outcome: Outcome)
      requires Valid()
      modifies this`store
      ensures Valid()
      ensures (outcome, store) == Save(old(store), products, faults)
    {
      if faults.openFails {
        return NotSaved(OpenFailed);
      }
      // clear, then add every record, in one transaction
      var staged := StageAdds(map[], products);
      if staged.None? {
        return NotSaved(ConstraintError);
      }
      if faults.requestFails {
        return NotSaved(RequestFailed);
      }
      AddAllWellKeyed(map[], products);
      store := staged.value;
      outcome := Saved;
    }

    /** saveInitialProducts. */
    method SaveInitialProducts(faults: Faults) returns (outcome: Outcome)
      requires Valid()
      modifies this`store
      ensures Valid()
      ensures (outcome, store) == Seed(old(store), faults)
    {
      if faults.openFails {
        return NotSaved(OpenFailed);
      }
      var staged := StageAdds(store, DEFAULT_PRODUCTS);
      if staged.None? {
        return NotSaved(ConstraintError);
      }
      if faults.requestFails {
        return NotSaved(RequestFailed);
      }
      AddAllWellKeyed(store, DEFAULT_PRODUCTS);
      store := staged.value;
      outcome := Saved;
    }

    /** loadProducts: `load` are the faults of the read, `seed` those of the
        seeding transaction started when the store is empty. */
    method LoadProducts(load: Faults, seed: Faults) returns (r: Result<seq<Product>>)
      requires Valid()
      modifies this`store
      ensures Valid()
      // opening fails: the seed records, store untouched
      ensures load.openFails ==> r == Ok(DEFAULT_PRODUCTS) && store == old(store)
      // the read fails: the rejection propagates
      ensures !load.openFails && load.requestFails ==>
                r == Err(RequestFailed) && store == old(store)
      // empty store: the seed records, whether or not seeding succeeds
      ensures !load.openFails && !load.requestFails && old(store) == map[] ==>
                && r == Ok(DEFAULT_PRODUCTS)
                && (if seed.openFails || seed.requestFails then store == map[]
                    else Lists(DEFAULT_PRODUCTS, store))
      // otherwise: what the store holds
      ensures !load.openFails && !load.requestFails && old(store) != map[] ==>
                r.Ok? && Lists(r.value, store) && store == old(store)
    {
      if load.openFails {
        return Ok(DEFAULT_PRODUCTS);
      }
      if load.requestFails {
        return Err(RequestFailed);
      }
      var found := GetAll();
      if |found| == 0 {
        assert store.Keys == {};
        var seeded := SaveInitialProducts(seed);
        SeedIntoEmptyStore(seed);
        return Ok(DEFAULT_PRODUCTS);
      }
      assert found[0].id in store;
      r := Ok(found);
    }

    /** getCategories. */
    method GetCategories() returns (categories: seq<string>)
      ensures categories == Categories(products)
    {
      categories := [];
      for i := 0 to |products|
        invariant categories == Categories(products[..i])
      {
        assert products[..i + 1][..i] == products[..i];
        var c := products[i].category;
        if c !in categories {
          categories := categories + [c];
        }
      }
      assert products[..|products|] == products;
    }

    /** addProduct: append (no check that the id is new), then save. The
        append stays even when the save is rejected. */
    method AddProduct(p: Product, faults: Faults) returns (outcome: Outcome)
      requires Valid()
      modifies this
      ensures Valid()
      ensures products == old(products) + [p]
      ensures (outcome, store) == Save(old(store), products, faults)
    {
      products := products + [p];
      outcome := SaveProducts(faults);
    }

    /** updateProduct: replace every record with the same id (a missing id
        changes nothing and is no error), then save. */
    method UpdateProduct(u: Product, faults: Faults) returns (outcome: Outcome)
      requires Valid()
      modifies this
      ensures Valid()
      ensures products == Replaced(old(products), u)
      ensures (outcome, store) == Save(old(store), products, faults)
    {
      products := Replaced(products, u);
      outcome := SaveProducts(faults);
    }

    /** deleteProduct: drop every record with that id, then save. */
    method DeleteProduct(id: string, faults: Faults) returns (outcome: Outcome)
      requires Valid()
      modifies this
      ensures Valid()
      ensures products == Without(old(products), id)
      ensures (outcome, store) == Save(old(store), products, faults)
    {
      products := Without(products, id);
      outcome := SaveProducts(faults);
    }
  }

  /** First run against an empty store, then a reload: the first load
      returns the seed records and stores them, so the reload returns the
      same six records (in the store's order). */
  method FirstRunThenReload() returns (first: Result<seq<Product>>, second: Result<seq<Product>>)
    ensures first == Ok(DEFAULT_PRODUCTS)
    ensures second.Ok? && multiset(second.value) == multiset(DEFAULT_PRODUCTS)
  {
    var catalog := new Catalog(map[]);
    first := catalog.LoadProducts(NO_FAULTS, NO_FAULTS);
    assert Lists(DEFAULT_PRODUCTS, catalog.store);
    assert catalog.store != map[] by {
      assert DEFAULT_PRODUCTS[0].id in catalog.store;
    }
    second := catalog.LoadProducts(NO_FAULTS, NO_FAULTS);
    ListingsAgree(second.value, DEFAULT_PRODUCTS, catalog.store);
  }
}
