/**
 * The bookshop service's catalog logic: the seed catalog `BOOKS_DB`, the
 * filtering behind `GET /books` and the lookup behind `GET /books/{book_id}`.
 */
module Bookshop {
  import opened Wrappers
  import opened Text
  import opened Filtering
  import opened Catalog

  const GreatGatsby := Book(1, "The Great Gatsby", "F. Scott Fitzgerald", 12.99, 45)
  const NineteenEightyFour := Book(2, "1984", "George Orwell", 14.99, 32)
  const Mockingbird := Book(3, "To Kill a Mockingbird", "Harper Lee", 13.50, 28)
  const PrideAndPrejudice := Book(4, "Pride and Prejudice", "Jane Austen", 11.99, 52)
  const CatcherInTheRye := Book(5, "The Catcher in the Rye", "J.D. Salinger", 12.50, 19)

  /** The five seed books in the order they are written. */
  const SeedBooks: seq<Book> := [GreatGatsby, NineteenEightyFour, Mockingbird, PrideAndPrejudice, CatcherInTheRye]

  /** `BOOKS_DB`: a dictionary literal keyed by book id, never written after it is built. */
  const BooksDb: BookDict := BookDict([1, 2, 3, 4, 5], map[
    1 := GreatGatsby, 2 := NineteenEightyFour, 3 := Mockingbird,
    4 := PrideAndPrejudice, 5 := CatcherInTheRye])

  /** The seed catalog is a well-formed dictionary keyed by book id, holding ids 1 to 5 in that order. */
  lemma SeedCatalog()
    ensures WellFormed(BooksDb) && KeysMatchIds(BooksDb)
    ensures forall k :: k in BooksDb.entries <==> 1 <= k <= 5
    ensures Values(BooksDb) == SeedBooks
  {
  }

  /** Python truthiness of the `author` parameter: present and not the empty string. */
  predicate AuthorFilterApplies(author: Option<string>) {
    author.Some? && author.value != ""
  }

  /** Python truthiness of the `min_price` parameter: present and not zero. */
  predicate PriceFilterApplies(minPrice: Option<real>) {
    minPrice.Some? && minPrice.value != 0.0
  }

  /** `author.lower() in b.author.lower()`. */
  predicate AuthorMatches(author: string, b: Book) {
    Contains(Lower(b.author), Lower(author))
  }

  /** The author comprehension: the books whose author contains `author`, ignoring ASCII case. */
  function ByAuthor(books: seq<Book>, author: string): (r: seq<Book>)
    ensures IsSubsequence(r, books)
    ensures forall b :: b in r <==> b in books && IsSubstring(Lower(author), Lower(b.author))
  {
    Filter(books, b => AuthorMatches(author, b))
  }

  /** The price comprehension: the books priced at `minPrice` or more. */
  function ByMinPrice(books: seq<Book>, minPrice: real): (r: seq<Book>)
    ensures IsSubsequence(r, books)
    ensures forall b :: b in r <==> b in books && b.price >= minPrice
  {
    Filter(books, (b: Book) => b.price >= minPrice)
  }

  /** Whether a book passes the filters that apply. */
  ghost predicate Selected(b: Book, author: Option<string>, minPrice: Option<real>) {
    && (AuthorFilterApplies(author) ==> IsSubstring(Lower(author.value), Lower(b.author)))
    && (PriceFilterApplies(minPrice) ==> b.price >= minPrice.value)
  }

  /** The filtering steps of `list_books`: the author filter if given, then the price filter if given. */
  function FilterBooks(books: seq<Book>, author: Option<string>, minPrice: Option<real>): (r: seq<Book>)
    ensures IsSubsequence(r, books)
    ensures forall b :: b in r <==> b in books && Selected(b, author, minPrice)
  {
    var byAuthor := if AuthorFilterApplies(author) then ByAuthor(books, author.value) else books;
    SubsequenceReflexive(books);
    if PriceFilterApplies(minPrice) then
      SubsequenceTransitive(ByMinPrice(byAuthor, minPrice.value), byAuthor, books);
      ByMinPrice(byAuthor, minPrice.value)
    else
      byAuthor
  }

  /**
   * A one-pass reference for the listing: each book in turn, kept when it
   * passes every applicable filter. It is the one-step form of the two-step
   * listing, written out independently of `Filter` so that
   * `FilterBooksIsSelection` compares the two.
   */
  ghost function Selection(books: seq<Book>, author: Option<string>, minPrice: Option<real>): seq<Book> {
    if books == [] then []
    else (if Selected(books[0], author, minPrice) then [books[0]] else []) + Selection(books[1..], author, minPrice)
  }

  /** Any comprehension whose test agrees with `Selected` computes the one-pass reference. */
  lemma {:induction false} FilterIsSelection(books: seq<Book>, keep: Book -> bool, author: Option<string>, minPrice: Option<real>)
    requires forall b :: keep(b) == Selected(b, author, minPrice)
    ensures Filter(books, keep) == Selection(books, author, minPrice)
  {
    if books != [] {
      FilterIsSelection(books[1..], keep, author, minPrice);
    }
  }

  /** The reference listing of a non-empty sequence: its head's verdict, then the rest. */
  lemma SelectionCons(b: Book, rest: seq<Book>, author: Option<string>, minPrice: Option<real>)
    ensures Selection([b] + rest, author, minPrice) ==
      (if Selected(b, author, minPrice) then [b] else []) + Selection(rest, author, minPrice)
  {
    assert ([b] + rest)[1..] == rest;
  }

  /** The two filtering steps compute exactly the one-pass reference. */
  lemma FilterBooksIsSelection(books: seq<Book>, author: Option<string>, minPrice: Option<real>)
    ensures FilterBooks(books, author, minPrice) == Selection(books, author, minPrice)
  {
    var selected := b => Selected(b, author, minPrice);
    if AuthorFilterApplies(author) && PriceFilterApplies(minPrice) {
      var byAuthor := b => AuthorMatches(author.value, b);
      var byPrice := (b: Book) => b.price >= minPrice.value;
      FilterTwice(books, byAuthor, byPrice, selected);
      FilterIsSelection(books, selected, author, minPrice);
    } else if AuthorFilterApplies(author) {
      FilterIsSelection(books, b => AuthorMatches(author.value, b), author, minPrice);
    } else if PriceFilterApplies(minPrice) {
      FilterIsSelection(books, (b: Book) => b.price >= minPrice.value, author, minPrice);
    } else {
      FilterKeepsAll(books, selected);
      FilterIsSelection(books, selected, author, minPrice);
    }
  }

  /**
   * With both filters given, the listing is the intersection of the two
   * single-filter listings, in the original order; applying the filters in
   * the other order gives the same list.
   */
  lemma CombinedFiltersIntersect(books: seq<Book>, author: string, minPrice: real)
    requires author != "" && minPrice != 0.0
    ensures var both := FilterBooks(books, Some(author), Some(minPrice));
      && both == ByAuthor(FilterBooks(books, None, Some(minPrice)), author)
      && IsSubsequence(both, FilterBooks(books, Some(author), None))
      && IsSubsequence(both, FilterBooks(books, None, Some(minPrice)))
      && forall b :: b in both <==> b in FilterBooks(books, Some(author), None) && b in FilterBooks(books, None, Some(minPrice))
  {
    FilterCommutes(books, b => AuthorMatches(author, b), (b: Book) => b.price >= minPrice);
  }

  /** `list_books(author, min_price)`: never fails, and returns a subsequence of the seed books. */
  function ListBooks(author: Option<string>, minPrice: Option<real>): (r: seq<Book>)
    ensures |r| <= 5
    ensures IsSubsequence(r, SeedBooks)
    ensures forall b :: b in r <==> b in SeedBooks && Selected(b, author, minPrice)
  {
    SeedCatalog();
    FilterBooks(Values(BooksDb), author, minPrice)
  }

  /** `get_book(book_id)`: the book stored under the id, or the `KeyError` the subscript raises. */
  function GetBook(bookId: int): (r: Result<Book, LookupError>)
    ensures r.Ok? <==> 1 <= bookId <= 5
    ensures r.Ok? ==> r.value.id == bookId && r.value in SeedBooks
    ensures r.Err? ==> r.error == KeyError(bookId)
  {
    SeedCatalog();
    Lookup(BooksDb, bookId)
  }

  /** What escapes `get_book` as written: the lookup's `KeyError`, or the `TypeError` of subscripting a model. */
  datatype GetBookError = KeyErrorRaised(key: int) | NotSubscriptable

  /**
   * `get_book` exactly as written: after a successful lookup its logging
   * line reads `book['title']`, and a pydantic model supports attribute
   * access only, so that subscript raises `TypeError` for every found book.
   */
  function GetBookAsWritten(bookId: int): (r: Result<Book, GetBookError>)
    ensures r.Err?
    ensures 1 <= bookId <= 5 <==> r == Err(NotSubscriptable)
    ensures !(1 <= bookId <= 5) <==> r == Err(KeyErrorRaised(bookId))
  {
    SeedCatalog();
    match Lookup(BooksDb, bookId)
    case Err(KeyError(k)) => Err(KeyErrorRaised(k))
    case Ok(book) => Err(NotSubscriptable)
  }

  /** `GET /books/2` fails as written, though the catalog holds book 2 and the intended lookup finds it. */
  lemma GetBookAsWrittenFailsOnKnownId()
    ensures GetBookAsWritten(2) == Err(NotSubscriptable)
    ensures GetBook(2) == Ok(NineteenEightyFour)
  {
  }

  /** With no filter that applies, the listing is the whole seed catalog, ids 1 to 5 in order. */
  lemma ListBooksUnfiltered(author: Option<string>, minPrice: Option<real>)
    requires !AuthorFilterApplies(author) && !PriceFilterApplies(minPrice)
    ensures ListBooks(author, minPrice) == SeedBooks
    ensures forall i :: 0 <= i < 5 ==> ListBooks(author, minPrice)[i].id == i + 1
  {
    SeedCatalog();
  }

  /** A name without the letter w, in either case, does not contain "orwell" once lower-cased. */
  lemma NoOrwellWithoutW(name: string)
    requires 'w' !in name && 'W' !in name
    ensures !IsSubstring(Lower("orwell"), Lower(name))
  {
    assert Lower("orwell") == "orwell";
    if IsSubstring("orwell", Lower(name)) {
      SubstringChars("orwell", Lower(name), 'w');
    }
  }

  /** The author filter "orwell" rejects every seed book but "1984". */
  lemma GatsbyNotByOrwell() ensures !Selected(GreatGatsby, Some("orwell"), None) {
    NoOrwellWithoutW(GreatGatsby.author);
  }

  lemma MockingbirdNotByOrwell() ensures !Selected(Mockingbird, Some("orwell"), None) {
    NoOrwellWithoutW(Mockingbird.author);
  }

  lemma PrideAndPrejudiceNotByOrwell() ensures !Selected(PrideAndPrejudice, Some("orwell"), None) {
    NoOrwellWithoutW(PrideAndPrejudice.author);
  }

  lemma CatcherNotByOrwell() ensures !Selected(CatcherInTheRye, Some("orwell"), None) {
    NoOrwellWithoutW(CatcherInTheRye.author);
  }

  /** George Orwell matches the filter "orwell". */
  lemma ByOrwell()
    ensures Selected(NineteenEightyFour, Some("orwell"), None)
  {
    assert Lower("orwell") == "orwell";
    assert Lower(NineteenEightyFour.author) == "george orwell";
    assert OccursAt("orwell", "george orwell", 7);
  }

  /** The reference listing of the seed books, book by book. */
  lemma SeedSelection(author: Option<string>, minPrice: Option<real>)
    ensures Selection(SeedBooks, author, minPrice) ==
      (if Selected(GreatGatsby, author, minPrice) then [GreatGatsby] else []) +
      ((if Selected(NineteenEightyFour, author, minPrice) then [NineteenEightyFour] else []) +
      ((if Selected(Mockingbird, author, minPrice) then [Mockingbird] else []) +
      ((if Selected(PrideAndPrejudice, author, minPrice) then [PrideAndPrejudice] else []) +
      (if Selected(CatcherInTheRye, author, minPrice) then [CatcherInTheRye] else []))))
  {
    assert SeedBooks == [GreatGatsby] + [NineteenEightyFour, Mockingbird, PrideAndPrejudice, CatcherInTheRye];
    SelectionCons(CatcherInTheRye, [], author, minPrice);
    assert [CatcherInTheRye] + [] == [CatcherInTheRye];
    SelectionCons(PrideAndPrejudice, [CatcherInTheRye], author, minPrice);
    SelectionCons(Mockingbird, [PrideAndPrejudice, CatcherInTheRye], author, minPrice);
    SelectionCons(NineteenEightyFour, [Mockingbird, PrideAndPrejudice, CatcherInTheRye], author, minPrice);
    SelectionCons(GreatGatsby, [NineteenEightyFour, Mockingbird, PrideAndPrejudice, CatcherInTheRye], author, minPrice);
  }

  /** The listing keeps each seed book exactly when it passes the applicable filters, in seed order. */
  lemma ListBooksBookByBook(author: Option<string>, minPrice: Option<real>)
    ensures ListBooks(author, minPrice) ==
      (if Selected(GreatGatsby, author, minPrice) then [GreatGatsby] else []) +
      ((if Selected(NineteenEightyFour, author, minPrice) then [NineteenEightyFour] else []) +
      ((if Selected(Mockingbird, author, minPrice) then [Mockingbird] else []) +
      ((if Selected(PrideAndPrejudice, author, minPrice) then [PrideAndPrejudice] else []) +
      (if Selected(CatcherInTheRye, author, minPrice) then [CatcherInTheRye] else []))))
  {
    SeedCatalog();
    assert ListBooks(author, minPrice) == FilterBooks(SeedBooks, author, minPrice);
    FilterBooksIsSelection(SeedBooks, author, minPrice);
    SeedSelection(author, minPrice);
  }

  /** A query that only "1984" passes lists that book alone. */
  lemma ListBooksOnlyNineteenEightyFour(author: Option<string>, minPrice: Option<real>)
    requires Selected(NineteenEightyFour, author, minPrice)
    requires !Selected(GreatGatsby, author, minPrice) && !Selected(Mockingbird, author, minPrice)
    requires !Selected(PrideAndPrejudice, author, minPrice) && !Selected(CatcherInTheRye, author, minPrice)
    ensures ListBooks(author, minPrice) == [NineteenEightyFour]
  {
    ListBooksBookByBook(author, minPrice);
  }

  /** A query that only books 2 and 3 pass lists them, in that order. */
  lemma ListBooksSecondAndThird(author: Option<string>, minPrice: Option<real>)
    requires Selected(NineteenEightyFour, author, minPrice) && Selected(Mockingbird, author, minPrice)
    requires !Selected(GreatGatsby, author, minPrice) && !Selected(PrideAndPrejudice, author, minPrice)
    requires !Selected(CatcherInTheRye, author, minPrice)
    ensures ListBooks(author, minPrice) == [NineteenEightyFour, Mockingbird]
  {
    ListBooksBookByBook(author, minPrice);
    assert [NineteenEightyFour] + ([Mockingbird] + []) == [NineteenEightyFour, Mockingbird];
  }

  /** `GET /books?author=orwell` lists book 2 only. */
  lemma ListBooksByOrwell()
    ensures ListBooks(Some("orwell"), None) == [NineteenEightyFour]
  {
    ByOrwell();
    GatsbyNotByOrwell();
    MockingbirdNotByOrwell();
    PrideAndPrejudiceNotByOrwell();
    CatcherNotByOrwell();
    ListBooksOnlyNineteenEightyFour(Some("orwell"), None);
  }

  /** `GET /books?min_price=13` lists books 2 and 3, in that order. */
  lemma ListBooksFromThirteen()
    ensures ListBooks(None, Some(13.0)) == [NineteenEightyFour, Mockingbird]
  {
    assert !Selected(GreatGatsby, None, Some(13.0)) && Selected(NineteenEightyFour, None, Some(13.0));
    assert Selected(Mockingbird, None, Some(13.0)) && !Selected(PrideAndPrejudice, None, Some(13.0));
    assert !Selected(CatcherInTheRye, None, Some(13.0));
    ListBooksSecondAndThird(None, Some(13.0));
  }

  /** `GET /books/2` finds "1984"; `GET /books/999` raises `KeyError(999)`. */
  lemma GetBookExamples()
    ensures GetBook(2) == Ok(NineteenEightyFour)
    ensures GetBook(999) == Err(KeyError(999))
  {
  }
}
