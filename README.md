# Car sales assistant: catalog and tool responses

This project models the catalog and response-formatting layer of a chat-based car sales assistant. A language-model agent answers customers. To do so it calls four tools:

- **ComparePrices** runs a web search for `"<model> price comparison"`. It quotes the first result's content and links to its URL. When there is no usable result, it returns a fixed apology.
- **GetCarDetails** lower-cases the model name and looks it up in a fixed in-memory catalog. On a hit it describes the car: the capitalised name, the details, the price with thousands separators (`$23,000`) and the benefits. It also attaches image URLs from a second search for `"<model> car"`. On a miss it returns a fixed "not currently in our stock" sentence with no images, and it makes no search.
- **ListAvailableCars** lists the catalog's names, capitalised and in table order, separated by `", "`.
- **CollectClientInfo** formats name, email and phone into one line. It does so only when all three are filled in.

The catalog is the 20-entry table of `code.py`, kept in insertion order (`Catalog.CarStock`). The search client is a parameter: a function from query to outcome, where the outcome is either a returned response dict or a raised exception. Because the client is a parameter, "no search on a miss" can be stated as "the result does not depend on the client".

Files:
- `ascii.dfy`: Python's `lower()` and `capitalize()` on ASCII.
- `text.dfy`: `Option`; `", ".join` and its inverse split; f-string interpolation; "occurs in order".
- `number_format.dfy`: `str(n)`, `int(s)` and `f"{n:,}"`, plus the positional shape of digit groups.
- `catalog.dfy`: the stock table and dict lookup.
- `search.dfy`: search replies, and the wrapper that turns exceptions into text.
- `tools.dfy`: the four tools.

Two behaviours of the code are easy to miss:
- **A failed search is not reported.** The search wrapper turns the exception into a string (code.py:55-56). A string fails the dict test, so `compare_prices` returns its fixed apology and the error description is dropped (`Tools.ComparePricesOnSearchError`).
- **No image search on a miss.** The image search sits inside the hit branch of `get_car_details` (code.py:72-74), so a name that is not in stock makes no search (`Tools.GetCarDetailsSearchUse`).

`Catalog.Keys` (the dict's keys in insertion order) and `Tools.CapitalizedNames` (those keys capitalised) are plain definitions. What they mean for the listed text is stated by `Tools.ListAvailableCarsRoundTrip` and `Tools.CapitalizedNamesRecoverKeys`, and dict membership by `Catalog.Lookup`.

## Model

| member | source | states |
|---|---|---|
| `Ascii.Lower` | code.py:71 | `lower()`: same length; each character is lowered pointwise; no upper-case ASCII letter is left |
| `Ascii.Capitalize` | code.py:79 | `capitalize()`: same length; the first character is not lower-case and no later one is upper-case; non-letters are unchanged and letters stay letters; same lower-case form as the input |
| `Ascii.LowerIdempotent` | code.py:71 | lowering twice equals lowering once |
| `Ascii.LowerFixedIff` | code.py:71-72 | a string equals its lower-case form exactly when it has no upper-case letter |
| `Ascii.CapitalizeIgnoresCase` | code.py:79 | inputs with the same lower-case form capitalise to the same string |
| `Ascii.CapitalizeInjectiveOnLower` | code.py:93 | distinct lower-case names capitalise to distinct strings |
| `Text.SplitJoin` | code.py:93 | splitting `sep.join(parts)` on `sep` gives back exactly `parts`, in order, when no part contains the separator's first character |
| `Text.InterpolateInOrder` | code.py:78-83 | every value interpolated into an f-string occurs in the result, in the given order and without overlap |
| `NumberFormat.DecimalDigits` | code.py:81 | `str(n)` is non-empty, all digits, and begins with `0` only for zero |
| `NumberFormat.ParseDecimalDigits` | code.py:81 | reading `str(n)` back as a number gives `n` |
| `NumberFormat.GroupThousandsShape` | code.py:81 | grouping a digit string gives a well-grouped string (every fourth character from the right is a comma, the rest are digits, the first group has 1-3 digits), and removing the commas gives the digits back |
| `NumberFormat.GroupThousandsUnique` | code.py:81 | any well-grouped string is the grouping of its own digits |
| `NumberFormat.WellGroupedDeterminedByDigits` | code.py:81 | two well-grouped strings with the same digits are equal |
| `NumberFormat.FormatThousandsRoundTrip` | code.py:81 | `f"{n:,}"` is well grouped, and without its commas it is `str(n)`, which reads back as `n` |
| `NumberFormat.FormatThousandsFiveDigits` | code.py:28 | 23000 is written `23,000` |
| `NumberFormat.FormatThousandsSixDigits` | code.py:42 | 120000 is written `120,000` |
| `Catalog.Lookup` | code.py:72-73 | `key in stock` / `stock[key]`: a miss exactly when the key is not among the keys; a hit returns an entry stored under that key |
| `Catalog.LookupStoredKey` | code.py:72-73 | with distinct keys, looking up a stored key gives its own entry |
| `Catalog.LookupAnyCase` | code.py:71-73 | with lower-case keys, any spelling of a key that differs only in letter case, once lowered, finds that key's entry |
| `Catalog.CarStockKeys` | code.py:27-48 | the shipped table's keys are the twenty listed names, in table order |
| `Catalog.CarStockWellFormed` | code.py:27-48 | the shipped table has 20 entries; its keys are distinct, lower-case and contain no comma |
| `Catalog.CarStockKeysAreLowerCase` | code.py:27-48 | every shipped key equals its own lower-case form |
| `Search.SearchWithImages` | code.py:51-56 | never raises: the reply is a dict exactly when the client returned, and then it is the client's response unchanged |
| `Tools.ComparePrices` | code.py:59-67 | the answer is the fixed apology when the reply is not a dict with results; otherwise it opens "Other dealers are selling the", contains the model, the first result's content and its URL twice, in that order, and ends with the markdown link `[url](url)` to that result |
| `Tools.PriceSentenceEndsWithLink` | code.py:65 | the sentence quoting a result always closes with the markdown link whose text and target are both the result's URL |
| `Tools.ComparePricesHitNotApology` | code.py:62-67 | a search with at least one result never yields the apology |
| `Tools.ComparePricesApologyIff` | code.py:62-67 | the answer is the apology exactly when the reply is not a dict with results |
| `Tools.ComparePricesOnSearchError` | code.py:51-67 | when the search raises, the answer is the fixed apology; the error text is not passed on |
| `Tools.GetCarDetails` | code.py:70-86 | on a hit: the details contain the capitalised input, the entry's details, `$` plus `f"{price:,}"` and the benefits, in that order; the images are the reply's image list when the reply is a dict, otherwise empty. On a miss: exactly `"Sorry, the " + capitalize(input) + " is not currently in our stock."`, with no images |
| `Tools.GetCarDetailsIgnoresCase` | code.py:71-79 | names that differ only in letter case get the same details text |
| `Tools.GetCarDetailsSearchUse` | code.py:72-86 | on a miss the result does not depend on the search client; on a hit it depends only on the client's answer to `"<model> car"` |
| `Tools.GetCarDetailsStocked` | code.py:71-83 | in a catalog with distinct lower-case keys, any casing of a stocked name is found and returns that entry; the details contain its capitalised name, details, price and benefits in order; the price text is well grouped, drops to `str(price)` without commas and reads back as the price |
| `Tools.GetCarDetailsCarStock` | code.py:70-86 | for the shipped catalog: any casing of a stocked name is found and returns that entry; the details contain its values in order; the price text is well grouped, drops to `str(price)` without commas and reads back as the price |
| `Tools.ListAvailableCars` | code.py:89-94 | the fixed empty-stock message exactly when the catalog is empty |
| `Tools.ListAvailableCarsRoundTrip` | code.py:89-94 | for comma-free names, reading the list back out of the message gives every capitalised name once, in catalog order; the empty-stock message yields no list |
| `Tools.CapitalizedNamesRecoverKeys` | code.py:93 | with distinct lower-case keys, lowering each listed name gives back its key, and no name is listed twice |
| `Tools.ListCarStock` | code.py:89-94 | the shipped catalog is listed as twenty distinct names, in table order, that lower back to its keys |
| `Tools.CollectClientInfo` | code.py:97-104 | `None` exactly when name, email or phone is empty; otherwise a text containing name, email and phone, in that order |

## Left out

- The chat UI (Streamlit page, CSS, the rendering of images and of the agent's answer) and the session transcript appends (code.py:114-212). These are presentation and session plumbing.
- Loading the API keys from the environment, and stopping when they are missing (code.py:10-18). This is process I/O.
- The language model, the agent, its memory and the tool registry (code.py:21, 106-117). These are foreign libraries. The registry holds only names and descriptions.
- The search client call itself (code.py:24, 53). It is modelled only through what it returns or raises, passed in as a function.
- The three `st.text_input` reads in `collect_client_info` (code.py:98-100). These are UI effects, so the fields are arguments.
- Python's Unicode case mapping. `lower` and `capitalize` change only the ASCII letters `A`-`Z` and `a`-`z`.
- The fallback text "No search URL found." (code.py:64). It is unreachable, because the guard at code.py:62 has already required a non-empty results list.
- Dicts missing keys. A response dict without a `results` or `images` key is modelled as one with an empty list, which the code treats alike. A result item without `content` or `url` would make the code raise; that case is not modelled.
