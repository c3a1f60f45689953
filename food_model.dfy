/** The entities a food-storefront handler works on: the multipart form an
    admin submits, the uploaded photo, the stored food record and the items of
    a shopping cart. */
module FoodModel {
  import opened Results

  /** Document identifiers (the database's object ids), kept abstract. */
  type Id = nat

  /** The text fields of a create or update request, exactly as the form
      parser hands them over: every field is a string or absent. */
  datatype FoodForm = FoodForm(
    name: Option<string>,
    description: Option<string>,
    price: Option<string>,
    category: Option<string>,
    quantity: Option<string>,
    shipping: Option<string>)

  /** An uploaded photo file: its byte size as reported by the form parser,
      the bytes read from the temporary file, and its MIME type. */
  datatype Upload = Upload(size: nat, data: seq<bv8>, contentType: string)

  /** The photo part of a stored record. */
  datatype Photo = Photo(data: seq<bv8>, contentType: string)

  /** A stored food record. `category` is the id of a category record and
      `createdAt` the timestamp the store assigned when it was first saved. */
  datatype Food = Food(
    id: Id,
    name: string,
    slug: string,
    description: string,
    price: int,
    category: string,
    quantity: int,
    shipping: Option<string>,
    photo: Option<Photo>,
    createdAt: int)

  /** A category record: its id, its display name and its slug. */
  datatype Category = Category(id: string, name: string, slug: string)

  /** One entry of the cart a buyer submits for payment. */
  datatype CartItem = CartItem(id: Id, price: int)

  /** What the record keeps of an upload: its bytes and content type. */
  function StoredPhoto(u: Upload): Photo
  {
    Photo(u.data, u.contentType)
  }
}
