# Bookshop catalog model

A Dafny model of the catalog core of a small bookshop web service (`main.py`).
The service keeps five books in an in-memory dictionary, `BOOKS_DB`, keyed by
book id. It answers two read operations:

- `list_books(author, min_price)` lists the books in insertion order. When
  `author` is truthy (given and non-empty), it keeps the books whose
  lower-cased author contains the lower-cased filter. When `min_price` is
  truthy (given and non-zero), it then keeps the books priced at `min_price`
  or more.
- `get_book(book_id)` subscripts the dictionary. An unknown id raises
  `KeyError`.

The core is pure, so the model is datatypes, functions and lemmas:

- `wrappers.dfy` (`Wrappers`): `Option` for absent query parameters, and
  `Result` for operations that raise.
- `text.dfy` (`Text`): ASCII lower-casing and Python's substring test `in`.
  Only its answer is modelled: `Contains` decides it by a recursive scan,
  proved equal to the "occurs at some position" definition, `IsSubstring`.
- `filtering.dfy` (`Filtering`): the list comprehension
  `[x for x in xs if keep(x)]` as `Filter`, with its membership, order
  (subsequence), composition and commutation lemmas.
- `catalog.dfy` (`Catalog`): the `Book` record and the dictionary. A Python
  dict remembers key insertion order, so it is modelled as that order plus
  the key-to-book map. The module also holds `list(d.values())` and the
  subscript `d[k]`, which raises `KeyError`.
- `bookshop.dfy` (`Bookshop`): the seed `BOOKS_DB`, the two filters,
  `ListBooks`, `GetBook`, and the properties the service promises. These
  include the concrete queries `author=orwell`, `min_price=13`, `GET /books/2`
  and `GET /books/999`.

Modelling choices:

- Prices are exact decimals (`real`). The source uses floats, but it only
  compares prices and does no arithmetic on them.
- `str.lower()` is ASCII lower-casing (A-Z to a-z).
- The two guards keep Python truthiness:
  - `author` is ignored when it is absent or `""`.
  - `min_price` is ignored when it is absent or `0`.
  - A negative `min_price` still applies.
- `BOOKS_DB` is a constant. Every operation is a pure function of its
  arguments, so nothing can change the catalog. Two calls with the same
  arguments return the same list by construction.
- `get_book` on an unknown id lets the `KeyError` escape; the model returns
  `Err(KeyError(id))`.

## Model

| member | source | states |
|---|---|---|
| `Text.LowerChar` | main.py:108 | lower-casing one character leaves no ASCII capital: a capital becomes the small letter at the same alphabet position, and every other character is kept |
| `Text.Lower` | main.py:108 | `s.lower()` has the length of `s`, holds no ASCII capital, and is `s` lower-cased position by position |
| `Text.Contains` | main.py:108 | `Contains` decides `f in s`: it answers true exactly when `f` occurs in `s` at some position (both directions) |
| `Text.SubstringChars` | main.py:108 | every character of a substring occurs in the enclosing string |
| `Filtering.Filter` | main.py:108 | a comprehension keeps exactly the elements that are in the input and pass the test, each as many times as it occurs in the input (multiset count), keeps their order (subsequence), and is no longer than its input |
| `Filtering.FilterKeepsAll` | main.py:106-110 | a comprehension that rejects nothing returns its input unchanged |
| `Filtering.FilterTwice` | main.py:108-110 | two comprehensions in a row equal one comprehension whose test is the conjunction of both |
| `Filtering.FilterCommutes` | main.py:108-110 | applying the two comprehensions in either order gives the same list |
| `Filtering.SubsequenceTransitive` | main.py:108-110 | a subsequence of a subsequence is a subsequence, so narrowing twice still follows the original order |
| `Catalog.Values` | main.py:106 | `list(BOOKS_DB.values())` lists one book per key, in key insertion order, and holds exactly the books stored in the dictionary |
| `Catalog.Lookup` | main.py:118 | `d[k]` succeeds exactly when `k` is a key; it returns the book stored under `k`, whose id is `k` when the keys match the ids; otherwise it raises `KeyError(k)` |
| `Bookshop.SeedCatalog` | main.py:33-69 | the seed dictionary is well formed, stores every book under its own id, has keys 1 to 5, and lists the five seed books in the written order |
| `Bookshop.ByAuthor` | main.py:107-108 | the author filter keeps a book exactly when it is in the input and the lower-cased filter is a substring of its lower-cased author, preserving order |
| `Bookshop.ByMinPrice` | main.py:109-110 | the price filter keeps a book exactly when it is in the input and its price is at least `min_price`, preserving order |
| `Bookshop.FilterBooks` | main.py:106-110 | the two guarded filters keep a book exactly when it passes every filter whose parameter is truthy, as a subsequence of the input |
| `Bookshop.FilterIsSelection` | main.py:108-110 | any comprehension whose test agrees with the applicable filters computes the one-pass reference listing |
| `Bookshop.FilterBooksIsSelection` | main.py:106-110 | the two filter steps together equal a single pass that keeps each book passing all applicable filters, in input order |
| `Bookshop.CombinedFiltersIntersect` | main.py:107-110 | with both filters truthy, the result is the intersection of the two single-filter results, is a subsequence of each, and equals applying the filters in the other order |
| `Bookshop.ListBooks` | main.py:104-112 | `list_books` never fails; it returns at most five books, as a subsequence of the seed books, holding exactly the seed books that pass the applicable filters |
| `Bookshop.GetBook` | main.py:116-118 | `get_book` succeeds exactly for ids 1 to 5 and then returns the seed book with that id; any other id raises `KeyError` with that id |
| `Bookshop.GetBookAsWritten` | main.py:116-120 | as written, `get_book` never returns: a found book makes the logging subscript raise `TypeError`, and an unknown id raises `KeyError` |
| `Bookshop.GetBookAsWrittenFailsOnKnownId` | main.py:119 | `GET /books/2` raises as written, while the intended lookup returns "1984" |
| `Bookshop.ListBooksUnfiltered` | main.py:106-110 | with no truthy filter (absent, `""` or `0`), the listing is the whole catalog, ids 1, 2, 3, 4, 5 in order |
| `Bookshop.SelectionCons` | main.py:108-110 | the one-pass reference listing takes its head's verdict and then lists the rest |
| `Bookshop.SeedSelection` | main.py:33-69 | the one-pass reference listing of the seed books decides each of the five books in seed order |
| `Bookshop.ListBooksBookByBook` | main.py:106-110 | the listing is the five seed books in order, each kept exactly when it passes the applicable filters |
| `Bookshop.NoOrwellWithoutW` | main.py:108 | a name without the letter w, in either case, does not contain "orwell" once lower-cased |
| `Bookshop.ByOrwell` | main.py:108 | the author filter "orwell" accepts George Orwell |
| `Bookshop.ListBooksOnlyNineteenEightyFour` | main.py:106-110 | a query that only "1984" passes lists that book alone |
| `Bookshop.ListBooksSecondAndThird` | main.py:106-110 | a query that only "1984" and "To Kill a Mockingbird" pass lists those two, in seed order |
| `Bookshop.ListBooksByOrwell` | main.py:107-108 | `author=orwell` lists book 2 only |
| `Bookshop.ListBooksFromThirteen` | main.py:109-110 | `min_price=13` lists books 2 and 3, in that order |
| `Bookshop.GetBookExamples` | main.py:118 | `get_book(2)` returns "1984" and `get_book(999)` raises `KeyError(999)` |

## Findings

| source | as written | input that shows it | evidently intended | confidence | as-written member | corrected member |
|---|---|---|---|---|---|---|
| main.py:119 | logs `book['title']` and `book['author']`, but `book` is a pydantic model, which has attribute access only | `GET /books/2`: the lookup finds "1984", then the subscript raises `TypeError` | log `book.title` and `book.author`, then return the found book | not executed; medium (relies on pydantic models not defining item access) | `Bookshop.GetBookAsWritten` | `Bookshop.GetBook` |

## Left out

- The web layer is not modelled: the FastAPI app, the route decorators, the
  `lifespan` start-up and shutdown hook, and the coercion of query and path
  parameters. These are framework code outside this model.
- `root` and `health` are not modelled. They only return fixed dictionaries.
- The `PORT` and `SERVICE_NAME` environment settings are not modelled. They
  are start-up I/O.
- Logging calls are not modelled, except for the effect of the subscript at
  main.py:119 (see Findings).
- There is no 404 response: the source has no handler that turns the
  `KeyError` into one.
- Bookshop.ByMinPrice: prices and `min_price` are exact decimals. IEEE float
  rounding, NaN (which fails every comparison) and infinities are not modelled.
- Text.Lower: only ASCII A-Z is lower-cased. `str.lower()` also lower-cases
  other Unicode letters, and some of them change length.
- Catalog.Values: the dictionary is modelled only as far as the catalog uses
  it: insertion order, membership and subscript. Other dict methods are not
  modelled.
