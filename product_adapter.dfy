/** How the catalogue list tells products apart when it is updated. */
module ProductDiff {
  import opened Products

  /** Two rows show the same product when their ids match. */
  predicate AreItemsTheSame(oldItem: Product, newItem: Product) {
    oldItem.productId == newItem.productId
  }

  /** A row needs no redraw when every field matches. */
  predicate AreContentsTheSame(oldItem: Product, newItem: Product) {
    oldItem == newItem
  }

  /** Equal contents imply the same item, as the list's diffing expects. */
  lemma ContentsImplyItems(oldItem: Product, newItem: Product)
    ensures AreContentsTheSame(oldItem, newItem) ==> AreItemsTheSame(oldItem, newItem)
  {
  }

  /** Item identity is an equivalence relation. */
  lemma ItemsTheSameIsEquivalence(a: Product, b: Product, c: Product)
    ensures AreItemsTheSame(a, a)
    ensures AreItemsTheSame(a, b) ==> AreItemsTheSame(b, a)
    ensures AreItemsTheSame(a, b) && AreItemsTheSame(b, c) ==> AreItemsTheSame(a, c)
  {
  }

  /**
   * A copy of a product with `isFavorite` flipped is the same item with
   * different contents. This is about a new copy of the row; flipping the
   * flag on the listed object itself leaves nothing to compare against.
   */
  lemma FavouriteChangeRedraws(p: Product)
    ensures AreItemsTheSame(p, p.(isFavorite := !p.isFavorite))
    ensures !AreContentsTheSame(p, p.(isFavorite := !p.isFavorite))
  {
  }
}
