/** The product catalogue: an upload-checked append and an unfiltered
    listing. The database is a sequence in insertion order; the upload
    middleware's result is the optional `file` parameter, whose name is
    already chosen on disk.
 */
module Products {
  import opened Http

  /** The product schema's fields. `image` is a path under the statically
      served upload directory; `images` defaults to an empty array. */
  datatype Product = Product(
    productName: JsValue,
    color: JsValue,
    price: JsValue,
    title: JsValue,
    description: JsValue,
    image: string,
    images: seq<string>)

  /** The fields `addProduct` reads from the request body. */
  datatype ProductRequest = ProductRequest(productName: JsValue, color: JsValue, price: JsValue)

  /** The part of the uploaded file the handler uses. */
  datatype UploadedFile = UploadedFile(filename: string)

  const UploadsPrefix: string := "/uploads/"
  const ImageRequired: string := "Image is required"
  const ProductAdded: string := "\U{2705} Product added successfully"
  const InternalError: string := "Internal server error"
  const FetchFailed: string := "Error fetching products"

  /** The public path of an uploaded file: the upload prefix, then the file name. */
  function ImagePath(filename: string): (p: string)
    ensures |p| == |UploadsPrefix| + |filename|
    ensures p[..|UploadsPrefix|] == UploadsPrefix
    ensures p[|UploadsPrefix|..] == filename
  {
    UploadsPrefix + filename
  }

  /** The image path names its file: two uploads get the same path exactly
      when their file names are equal, and the name is recovered by dropping
      the prefix. */
  lemma ImagePathNamesFile(f1: string, f2: string)
    ensures ImagePath(f1) == ImagePath(f2) <==> f1 == f2
    ensures ImagePath(f1)[|UploadsPrefix|..] == f1
  {
  }

  /** The record a successful `addProduct` creates. */
  function NewProduct(req: ProductRequest, file: UploadedFile): Product
  {
    Product(req.productName, req.color, req.price, Undefined, Undefined, ImagePath(file.filename), [])
  }

  /** `addProduct`. `fault` stands for a failing save; a failed single-record
      write leaves the collection as it was. Only the file is checked. */
  function Add(store: seq<Product>, req: ProductRequest, file: Option<UploadedFile>, fault: bool): (h: Handled<Product>)
    ensures file.None? ==>
              Rejected(h, store, StatusBadRequest) && h.response.body == Message(ImageRequired)
    ensures file.Some? && fault ==>
              Rejected(h, store, StatusServerError) && h.response.body == Message(InternalError)
    ensures file.Some? && !fault ==>
              && |h.store| == |store| + 1
              && h.store[..|store|] == store
              && h.store[|store|].image == UploadsPrefix + file.value.filename
              && h.store[|store|].productName == req.productName
              && h.store[|store|].color == req.color
              && h.store[|store|].price == req.price
              && h.response == Response(StatusOk, Saved(ProductAdded, h.store[|store|]))
  {
    match file
    case None => Handled(Response(StatusBadRequest, Message(ImageRequired)), store)
    case Some(f) =>
      if fault then Handled(Response(StatusServerError, Message(InternalError)), store)
      else
        var p := NewProduct(req, f);
        Handled(Response(StatusOk, Saved(ProductAdded, p)), store + [p])
  }

  /** No field of the body is checked: with a file, any two requests,
      including ones with every field missing, get the same status and grow
      the collection alike. */
  lemma AddIgnoresFieldPresence(store: seq<Product>, r1: ProductRequest, r2: ProductRequest,
                                file: Option<UploadedFile>, fault: bool)
    ensures Add(store, r1, file, fault).response.status == Add(store, r2, file, fault).response.status
    ensures |Add(store, r1, file, fault).store| == |Add(store, r2, file, fault).store|
    ensures file.Some? && !fault ==>
              Add(store, ProductRequest(Undefined, Undefined, Undefined), file, fault).store
              == store + [Product(Undefined, Undefined, Undefined, Undefined, Undefined,
                                  UploadsPrefix + file.value.filename, [])]
  {
  }

  /** `getProduct`: every record, in stored order, with the collection left
      as it was. */
  function List(store: seq<Product>, fault: bool): (h: Handled<Product>)
    ensures h.store == store
    ensures !fault ==> h.response.status == StatusOk
    ensures !fault ==> h.response.body.Listing? && h.response.body.records == store
    ensures fault ==> h.response == Response(StatusServerError, Message(FetchFailed))
  {
    if fault then Handled(Response(StatusServerError, Message(FetchFailed)), store)
    else Handled(Response(StatusOk, Listing(store)), store)
  }

  /** A product created with an uploaded file is the last one the next
      listing shows, after the earlier records unchanged, and its image path
      is the uploaded file's. */
  lemma AddedProductIsListed(store: seq<Product>, req: ProductRequest, file: UploadedFile)
    ensures var listed := List(Add(store, req, Some(file), false).store, false).response.body.records;
            && |listed| == |store| + 1
            && listed[..|store|] == store
            && listed[|store|] == NewProduct(req, file)
            && listed[|store|].image == UploadsPrefix + file.filename
  {
  }
}
