/**
 * The catalogue repository. Product lists are narrowed to a custom
 * assortment (a list of favourite ids fetched once from the network, or
 * the empty list when that fetch fails), and refreshes fetch every product
 * from the network and write the relevant ones into the product table.
 *
 * The network's answers are parameters; the product table is a map keyed
 * by product id, where writing a product replaces any row with its id.
 */
module Catalog {
  import opened Wrappers
  import opened Lists
  import opened Products

  /** The products whose id is in `customAssortment`, in their original order. */
  function ApplyCustomAssortment(products: seq<Product>, customAssortment: seq<string>): (r: seq<Product>)
    ensures |r| <= |products|
    ensures forall p :: p in r <==> p in products && p.productId in customAssortment
  {
    Filter(products, (p: Product) => p.productId in customAssortment)
  }

  /** The main-safe variant: despite its name it filters exactly as `ApplyCustomAssortment` and does not sort. */
  function ApplyMainSafeSort(products: seq<Product>, customSortOrder: seq<string>): (r: seq<Product>)
    ensures r == ApplyCustomAssortment(products, customSortOrder)
  {
    ApplyCustomAssortment(products, customSortOrder)
  }

  /** The favourites the cache serves: the fetched list, or the empty list when fetching failed. */
  function CachedAssortment(fetched: Option<seq<string>>): seq<string> {
    fetched.GetOr([])
  }

  /** The fetched products of `productGroup`, in fetched order. */
  function ProductsOfGroup(products: seq<Product>, productGroup: ProductGroup): (r: seq<Product>)
    ensures |r| <= |products|
    ensures forall p :: p in r <==> p in products && p.productGroupId == productGroup.id
  {
    Filter(products, (p: Product) => p.productGroupId == productGroup.id)
  }

  /** The cache-invalidation policy: refresh every time. */
  function ShouldUpdateProductsCache(productGroup: ProductGroup): (r: bool)
    ensures r
  {
    true
  }

  /** The result keeps the relative order of the products it keeps. */
  lemma AssortmentIsSubsequence(products: seq<Product>, customAssortment: seq<string>)
    ensures IsSubsequence(ApplyCustomAssortment(products, customAssortment), products)
  {
    FilterIsSubsequence(products, (p: Product) => p.productId in customAssortment);
  }

  /** A kept product occurs as often as in the input; a dropped one not at all. */
  lemma AssortmentCounts(products: seq<Product>, customAssortment: seq<string>, p: Product)
    ensures multiset(ApplyCustomAssortment(products, customAssortment))[p] ==
      if p.productId in customAssortment then multiset(products)[p] else 0
  {
    FilterCounts(products, (p: Product) => p.productId in customAssortment, p);
  }

  /** Applying the same assortment twice is the same as applying it once. */
  lemma AssortmentIdempotent(products: seq<Product>, customAssortment: seq<string>)
    ensures ApplyCustomAssortment(ApplyCustomAssortment(products, customAssortment), customAssortment)
         == ApplyCustomAssortment(products, customAssortment)
  {
    FilterIdempotent(products, (p: Product) => p.productId in customAssortment);
  }

  /** Only the set of ids in the assortment matters, not their order or repetitions. */
  lemma AssortmentDependsOnIdSet(products: seq<Product>, assortment1: seq<string>, assortment2: seq<string>)
    requires forall id :: id in assortment1 <==> id in assortment2
    ensures ApplyCustomAssortment(products, assortment1) == ApplyCustomAssortment(products, assortment2)
  {
    FilterAgreeing(products,
      (p: Product) => p.productId in assortment1,
      (p: Product) => p.productId in assortment2);
  }

  /** Assortments of concatenated lists concatenate. */
  lemma AssortmentAppend(products1: seq<Product>, products2: seq<Product>, customAssortment: seq<string>)
    ensures ApplyCustomAssortment(products1 + products2, customAssortment)
         == ApplyCustomAssortment(products1, customAssortment) + ApplyCustomAssortment(products2, customAssortment)
  {
    FilterAppend(products1, products2, (p: Product) => p.productId in customAssortment);
  }

  /** When the favourites cannot be fetched, the fallback shows no product at all. */
  lemma FailedFavouritesShowNothing(products: seq<Product>)
    ensures ApplyCustomAssortment(products, CachedAssortment(None)) == []
  {
    FilterNoneKept(products, (p: Product) => p.productId in CachedAssortment(None));
  }

  /** The ids of `products`. */
  function Ids(products: seq<Product>): set<string> {
    set p | p in products :: p.productId
  }

  /** `products[i]` is the last product in `products` with its id. */
  predicate IsLastWithId(products: seq<Product>, i: int)
    requires 0 <= i < |products|
  {
    forall j :: i < j < |products| ==> products[j].productId != products[i].productId
  }

  /** The ids of `products` are the first one's and the rest's. */
  lemma IdsOfCons(products: seq<Product>)
    requires products != []
    ensures Ids(products) == {products[0].productId} + Ids(products[1..])
  {
    assert forall p :: p in products <==> p == products[0] || p in products[1..];
  }

  /**
   * The product table after writing `products` one after the other, each
   * replacing the row with its id: the ids written are added and every
   * other row is unchanged.
   */
  function InsertAll(table: map<string, Product>, products: seq<Product>): (t: map<string, Product>)
    ensures t.Keys == table.Keys + Ids(products)
    ensures forall id :: id in table && id !in Ids(products) ==> t[id] == table[id]
    decreases |products|
  {
    if products == [] then table
    else
      IdsOfCons(products);
      InsertAll(table[products[0].productId := products[0]], products[1..])
  }

  /** Every row `InsertAll` writes holds a product of the batch with that row's id. */
  lemma {:induction false} InsertAllWritesBatch(table: map<string, Product>, products: seq<Product>)
    ensures forall id :: id in Ids(products) ==>
      InsertAll(table, products)[id] in products && InsertAll(table, products)[id].productId == id
    decreases |products|
  {
    if products != [] {
      var head := products[0];
      var rest := products[1..];
      IdsOfCons(products);
      InsertAllWritesBatch(table[head.productId := head], rest);
      assert forall p :: p in rest ==> p in products;
    }
  }

  /** When a batch writes several products with one id, the last one wins. */
  lemma {:induction false} InsertAllLastWins(table: map<string, Product>, products: seq<Product>)
    ensures forall i :: 0 <= i < |products| && IsLastWithId(products, i) ==>
      InsertAll(table, products)[products[i].productId] == products[i]
    decreases |products|
  {
    if products != [] {
      var head := products[0];
      var rest := products[1..];
      IdsOfCons(products);
      InsertAllLastWins(table[head.productId := head], rest);
      assert forall i :: 1 <= i < |products| && IsLastWithId(products, i) ==>
        IsLastWithId(rest, i - 1);
      if IsLastWithId(products, 0) {
        assert head.productId !in Ids(rest);
      }
    }
  }

  class ProductRepository {
    /** The product table. */
    var table: map<string, Product>

    constructor (table: map<string, Product>)
      ensures this.table == table
    {
      this.table := table;
    }

    /**
     * Refreshes the whole table from `allProducts`, the network's answer;
     * a network error leaves the table as it was and is reported.
     */
    method TryUpdateRecentProductsCache(allProducts: Result<seq<Product>, string>) returns (error: Option<string>)
      modifies this
      ensures allProducts.Success? ==> error == None && table == InsertAll(old(table), allProducts.value)
      ensures allProducts.Failure? ==> error == Some(allProducts.error) && table == old(table)
    {
      error := None;
      if ShouldUpdateProductsCache(Others) {
        error := FetchRecentProducts(allProducts);
      }
    }

    /** Refreshes the rows of `productGroup` from `allProducts`, the network's answer. */
    method TryUpdateRecentProductsForProductGroupCache(productGroup: ProductGroup, allProducts: Result<seq<Product>, string>)
      returns (error: Option<string>)
      modifies this
      ensures allProducts.Success? ==>
        error == None && table == InsertAll(old(table), ProductsOfGroup(allProducts.value, productGroup))
      ensures allProducts.Failure? ==> error == Some(allProducts.error) && table == old(table)
    {
      error := None;
      if ShouldUpdateProductsCache(productGroup) {
        var fetched := FetchProductsForProductGroup(productGroup, allProducts);
        if fetched.Failure? {
          error := Some(fetched.error);
        }
      }
    }

    method FetchRecentProducts(allProducts: Result<seq<Product>, string>) returns (error: Option<string>)
      modifies this
      ensures allProducts.Success? ==> error == None && table == InsertAll(old(table), allProducts.value)
      ensures allProducts.Failure? ==> error == Some(allProducts.error) && table == old(table)
    {
      match allProducts {
        case Failure(message) =>
          error := Some(message);
        case Success(products) =>
          table := InsertAll(table, products);
          error := None;
      }
    }

    /** Writes the fetched products of `productGroup` into the table and returns them. */
    method FetchProductsForProductGroup(productGroup: ProductGroup, allProducts: Result<seq<Product>, string>)
      returns (products: Result<seq<Product>, string>)
      modifies this
      ensures allProducts.Success? ==>
        && products == Success(ProductsOfGroup(allProducts.value, productGroup))
        && table == InsertAll(old(table), products.value)
      ensures allProducts.Failure? ==> products == Failure(allProducts.error) && table == old(table)
    {
      match allProducts {
        case Failure(message) =>
          products := Failure(message);
        case Success(fetched) =>
          var ofGroup := ProductsOfGroup(fetched, productGroup);
          table := InsertAll(table, ofGroup);
          products := Success(ofGroup);
      }
    }
  }
}
