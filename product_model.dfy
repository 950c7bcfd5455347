/** A row of the `products` table. The id is a UUID, kept as its text; the
    price is a DECIMAL(10, 2) column, kept here as a whole number of cents;
    `createdAt` is the timestamp the table records on insert. */
module ProductModel {
  import opened Common

  datatype Product = Product(
    productId: string,
    name: string,
    description: string,
    price: int,
    imageUrl: Option<string>,
    stock: int,
    categoryId: int,
    createdAt: int)
}
