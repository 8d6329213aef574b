/** The catalogue's data: a product row and the product group used as a filter. */
module Products {
  import opened JvmInt

  /** A product, keyed by `productId` in the product table. */
  datatype Product = Product(
    productId: string,
    name: string,
    description: string,
    productGroupId: Int32,
    imageUrl: string,
    isFavorite: bool)

  /** A product group, compared by its id. */
  datatype ProductGroup = ProductGroup(id: Int32)

  /** The "no filter" selection: the group with id -1. */
  const Others: ProductGroup := ProductGroup(-1)
}
