/**
 * The catalogue screen's state: the selected product group (`Others` means
 * no filter), the message waiting to be shown, the loading spinner, and the
 * refresh that follows every selection.
 *
 * Offering a selection and the refresh that reacts to it are separate
 * calls, in that order; only the latest selection matters. The refresh
 * stops for good after its first error, because the error ends the
 * stream of selections it follows.
 */
module ProductList {
  import opened Wrappers
  import opened JvmInt
  import opened Lists
  import opened Products
  import opened Catalog

  /**
   * The products shown for `productGroup`, given the table's rows in name
   * order: all of them when unfiltered, the group's rows otherwise, each
   * time narrowed to the assortment.
   */
  function VisibleProducts(productGroup: ProductGroup, rows: seq<Product>, customAssortment: seq<string>)
    : (r: seq<Product>)
    ensures forall p :: p in r <==>
      && p in rows && p.productId in customAssortment
      && (productGroup != Others ==> p.productGroupId == productGroup.id)
  {
    if productGroup == Others then ApplyCustomAssortment(rows, customAssortment)
    else ApplyMainSafeSort(ProductsOfGroup(rows, productGroup), customAssortment)
  }

  /** The shown products keep the order of the table's rows. */
  lemma VisibleProductsInOrder(productGroup: ProductGroup, rows: seq<Product>, customAssortment: seq<string>)
    ensures IsSubsequence(VisibleProducts(productGroup, rows, customAssortment), rows)
  {
    if productGroup == Others {
      AssortmentIsSubsequence(rows, customAssortment);
    } else {
      var ofGroup := ProductsOfGroup(rows, productGroup);
      AssortmentIsSubsequence(ofGroup, customAssortment);
      FilterIsSubsequence(rows, (p: Product) => p.productGroupId == productGroup.id);
      SubsequenceTransitive(VisibleProducts(productGroup, rows, customAssortment), ofGroup, rows);
    }
  }

  /**
   * The table after a successful refresh for `productGroup`: every fetched
   * product when unfiltered, only the group's products otherwise. Rows are
   * never removed, and a filtered refresh writes only rows of its group.
   */
  function RefreshedTable(table: map<string, Product>, productGroup: ProductGroup, allProducts: seq<Product>)
    : (r: map<string, Product>)
    ensures table.Keys <= r.Keys
    ensures productGroup == Others ==> r.Keys == table.Keys + Ids(allProducts)
    ensures productGroup != Others ==>
      forall id :: id in r && (id !in table || r[id] != table[id]) ==> r[id].productGroupId == productGroup.id
  {
    if productGroup == Others then InsertAll(table, allProducts)
    else
      var ofGroup := ProductsOfGroup(allProducts, productGroup);
      InsertAllWritesBatch(table, ofGroup);
      InsertAll(table, ofGroup)
  }

  /**
   * The spinner after a refresh, as the code is written: it is switched on
   * before refreshing and switched off only when the stream of selections
   * ends, which happens only on an error.
   */
  function SpinnerAfterRefreshAsWritten(error: Option<string>): (shown: bool) {
    error.None?
  }

  /** After a successful refresh, the code as written leaves the spinner showing. */
  lemma SpinnerStaysOnAfterSuccess()
    ensures SpinnerAfterRefreshAsWritten(None)
  {
  }

  /** The spinner after a refresh, switched off once the refresh is over, whatever its outcome. */
  function SpinnerAfterRefresh(error: Option<string>): (shown: bool)
    ensures !shown
  {
    false
  }

  class ProductListViewModel {
    const repository: ProductRepository
    /** The latest offered selection. */
    var productGroup: ProductGroup
    var snackbar: Option<string>
    var spinner: bool
    /** Whether refreshes still follow the selections. */
    var refreshing: bool

    constructor (repository: ProductRepository)
      ensures this.repository == repository
      ensures productGroup == Others && !IsFiltered()
      ensures snackbar == None && !spinner && refreshing
    {
      this.repository := repository;
      productGroup := Others;
      snackbar := None;
      spinner := false;
      refreshing := true;
      new;
      ClearProductGroupFilter();
    }

    /** Whether a filter is active: the selection is a group other than id -1. */
    function IsFiltered(): (r: bool)
      reads this
      ensures r <==> productGroup.id != -1
    {
      productGroup != Others
    }

    /** Filters the list to the group with id `num`. */
    method SetGrowZoneNumber(num: Int32)
      modifies this
      ensures productGroup == ProductGroup(num)
      ensures IsFiltered() <==> num != -1
      ensures snackbar == old(snackbar) && spinner == old(spinner) && refreshing == old(refreshing)
    {
      productGroup := ProductGroup(num);
    }

    /** Removes the filter. */
    method ClearProductGroupFilter()
      modifies this
      ensures productGroup == Others && !IsFiltered()
      ensures snackbar == old(snackbar) && spinner == old(spinner) && refreshing == old(refreshing)
    {
      productGroup := Others;
    }

    /** The screen showed the pending message. */
    method OnSnackbarShown()
      modifies this
      ensures snackbar == None
      ensures productGroup == old(productGroup) && spinner == old(spinner) && refreshing == old(refreshing)
    {
      snackbar := None;
    }

    /**
     * The refresh reacting to the latest selection, with `allProducts` the
     * network's answer: `Others` refreshes every product, any other group
     * only that group's. An error is shown and ends all later refreshes.
     */
    method RefreshForSelection(allProducts: Result<seq<Product>, string>)
      modifies this, repository
      ensures productGroup == old(productGroup)
      ensures !old(refreshing) ==>
        && repository.table == old(repository.table)
        && snackbar == old(snackbar) && spinner == old(spinner) && !refreshing
      ensures old(refreshing) && allProducts.Success? ==>
        && repository.table == RefreshedTable(old(repository.table), productGroup, allProducts.value)
        && snackbar == old(snackbar) && refreshing && spinner == SpinnerAfterRefresh(None)
      ensures old(refreshing) && allProducts.Failure? ==>
        && repository.table == old(repository.table)
        && snackbar == Some(allProducts.error) && !refreshing
        && spinner == SpinnerAfterRefresh(Some(allProducts.error))
    {
      if !refreshing {
        return;
      }
      spinner := true;
      var error: Option<string>;
      if productGroup == Others {
        error := repository.TryUpdateRecentProductsCache(allProducts);
      } else {
        error := repository.TryUpdateRecentProductsForProductGroupCache(productGroup, allProducts);
      }
      spinner := SpinnerAfterRefresh(error);
      if error.Some? {
        snackbar := error;
        refreshing := false;
      }
    }
  }
}
