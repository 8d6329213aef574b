/** The catalogue screen's filter button: it switches between no filter and product group 9. */
module MainScreen {
  import opened JvmInt
  import opened Products
  import opened ProductList

  /** The group the filter button selects. */
  const FilterGroupNumber: Int32 := 9

  /** The selection after a press of the filter button. */
  function ToggledGroup(productGroup: ProductGroup): (r: ProductGroup)
    ensures (r == Others) <==> (productGroup != Others)
    ensures productGroup == Others ==> r == ProductGroup(FilterGroupNumber)
  {
    if productGroup != Others then Others else ProductGroup(FilterGroupNumber)
  }

  /** Starting unfiltered, two presses come back to the unfiltered list. */
  lemma TwoPressesFromUnfiltered()
    ensures ToggledGroup(ToggledGroup(Others)) == Others
  {
  }

  /** Two presses restore the selection exactly when it was unfiltered or group 9. */
  lemma TwoPressesRestore(productGroup: ProductGroup)
    ensures ToggledGroup(ToggledGroup(productGroup)) == productGroup <==>
      productGroup == Others || productGroup == ProductGroup(FilterGroupNumber)
  {
  }

  /** A press of the filter button: clears an active filter, or else selects group 9. */
  method UpdateDataByGroup(viewModel: ProductListViewModel)
    modifies viewModel
    ensures viewModel.productGroup == ToggledGroup(old(viewModel.productGroup))
    ensures viewModel.IsFiltered() == !old(viewModel.IsFiltered())
    ensures viewModel.snackbar == old(viewModel.snackbar) && viewModel.spinner == old(viewModel.spinner)
    ensures viewModel.refreshing == old(viewModel.refreshing)
  {
    if viewModel.IsFiltered() {
      viewModel.ClearProductGroupFilter();
    } else {
      viewModel.SetGrowZoneNumber(FilterGroupNumber);
    }
  }
}
