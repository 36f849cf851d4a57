# Price-list product search, modelled in Dafny

The program reads price lists (comma-separated files whose names contain
"price"), finds in each the columns holding a product's name, price and
weight by their (Russian) header labels, picks the rows whose name contains a
query, ranks the picks of all lists by price per kilogram, and prints them as
a fixed-width table. This project models the logic of `project.py`:

- `filter_string_list`, the two-stage pattern filter (module `StringFilter`);
- `ProductSearch._get_indexes`, `_get_product_in_price` and `search_product`
  (module `ProductSearch`), with Python's `int(str)` (`PyInt`), the exact
  half-to-even rounding of `round(price / weight, 0)` (`Rounding`) and the
  stable `sorted(..., key=lambda x: x[4])` (`StableSort`);
- `ReportGenerator.header_string` and `generate_report` (module `ReportGenerator`).

Loops that append to lists or strings are methods with loop invariants, each
proved equal to a recursive specification function; the properties are lemmas
about those functions. The exceptions the search path raises for malformed
price lists (an empty price list, a missing header role, a short row, a
non-integer cell, a zero weight) are each an `Err` of `SearchError` that aborts
the search, as the exception does. Two exceptions that depend on the size of
the numbers, not on the shape of the list, are not modelled (see "Left out").

The model follows what the code does, in particular:

- header labels are compared exactly (no trimming, no lowercasing), and when a
  role's label occurs twice the later column wins;
- an empty query matches every row (`"" in s` is true), it does not yield an
  empty result;
- a malformed row, an incomplete header or an empty file raises and aborts the
  whole search; nothing is skipped with a warning.

Python's regular-expression search, `str.lower` and `str()` of the float unit
price are parameters: `matches(pattern, s)`, a per-character `lower`, and
`show`.

## Model

| member | source | states |
|---|---|---|
| `StringFilter.FilterStringList` | project.py:16-39 | the result is the good-pattern stage (a copy of the input when there are no good patterns), then, only when bad patterns are given, the bad-pattern stage |
| `StringFilter.CopiesCount` | project.py:28-30 | for one string, the inner loop appends that string once per good pattern that matches it, and nothing else |
| `StringFilter.SelectedCount` | project.py:26-32 | after the good stage a string occurs (occurrences in the input) times (good patterns it matches) times; with no good patterns, as often as in the input |
| `StringFilter.SelectingAppend` | project.py:27-30 | the good stage keeps input order: its output for `a + b` is its output for `a` followed by its output for `b` |
| `StringFilter.CleanedCount` | project.py:33-37 | the bad stage removes every occurrence of a string some bad pattern matches and keeps every occurrence of the others |
| `StringFilter.CleanedAppend` | project.py:34-36 | the bad stage keeps order: its output for `a + b` is its output for `a` followed by its output for `b` |
| `StringFilter.CleanedIsIdentity` | project.py:33-39 | the bad stage returns its input unchanged exactly when no bad pattern matches any of the strings |
| `StringFilter.FilteredCount` | project.py:16-39 | whole filter: a string occurs input-count times good-match-count times (once per input occurrence without good patterns), and zero times when a bad pattern matches it |
| `PyInt.IntToString` | project.py:123-124 | `str(n)` is non-empty and made of decimal digits, with a leading minus sign exactly for negative numbers |
| `PyInt.ParseInt` | project.py:100-101 | `int(cell)` fails on a blank cell, gives a negative value only after a leading minus, and reads a cell of plain digits as their decimal value |
| `PyInt.ParseIntToString` | project.py:100-101 | `int(str(n)) == n` for every integer n |
| `PyInt.ParseIntRejects` | project.py:100-101 | `int()` fails on any cell holding a character other than digits, underscore, sign or whitespace (a decimal point, a currency sign) |
| `Text.ContainsAt` | project.py:98 | the substring test holds exactly when the needle occurs at some position of the haystack |
| `Rounding.RoundHalfEven` | project.py:102 | the unit price is within half a unit of price / weight, and even when exactly half a unit away, for every sign of price and weight |
| `Rounding.RoundHalfEvenUnique` | project.py:102 | any integer with that nearest-even property equals the computed unit price |
| `Rounding.RoundHalfEvenExamples` | project.py:102 | 5/2 rounds to 2, 7/2 to 4, -5/2 and 5/-2 to -2, 50/2 to 25 |
| `StableSort.SortBy` | project.py:109 | the sorted list holds exactly the elements of its input (a permutation) and is ascending by key |
| `StableSort.SortByStable` | project.py:109 | for every key value, the elements with that key appear in the same order as in the input |
| `ProductSearch.LastOf` | project.py:83-89 | the found position holds a cell of the role and no later cell has the role; none found means no cell has the role |
| `ProductSearch.GetIndexes` | project.py:79-92 | the header scan returns the three last-match indices, or the incomplete-header error carrying what was found |
| `ProductSearch.RoleOfIsMembership` | project.py:84-89 | the if/elif chain gives a cell a role exactly when the cell is in that role's synonym list (the lists are disjoint) |
| `ProductSearch.ResolveLastMatch` | project.py:83-92 | resolution succeeds exactly when each role has a header exactly equal to one of its synonyms, and each index is the last such header |
| `ProductSearch.ResolveIsExact` | project.py:84-92 | lowercase labels resolve; the same labels capitalised, or with a trailing space, do not |
| `ProductSearch.ResolveLastWins` | project.py:83-89 | with two name labels, the later column is the name column |
| `ProductSearch.GetProductInPrice` | project.py:94-103 | the method returns the products of the data rows, or the error of the first row that raises |
| `ProductSearch.ProjectRow` | project.py:98-102 | a row is skipped exactly when its name cell exists and does not contain the query; a product it yields carries the row's name, which contains the query, the integers its price and weight cells parse to, a nonzero weight, the file name and the nearest-even unit price |
| `ProductSearch.ProjectRowRaises` | project.py:98-102 | a row raises exactly when its name cell is missing, or its name matches and its price or weight cell is missing, not an integer, or the weight is zero |
| `ProductSearch.CollectFirstError` | project.py:97-102 | the data rows yield products exactly when no row raises; otherwise the error is that of the first raising row |
| `ProductSearch.CollectSelects` | project.py:97-102 | one product per matching row, in row order: the row's name, its parsed price and weight, the file name, weight nonzero, and the rounded unit price |
| `ProductSearch.MatchingMembers` | project.py:97-98 | a row is selected exactly when it is a data row whose lowercased name cell contains the lowercased query |
| `ProductSearch.EmptyQueryMatchesAll` | project.py:98 | the empty query selects every data row |
| `ProductSearch.SearchProduct` | project.py:105-109 | the method returns the per-file results concatenated in file order and stably sorted by unit price, or the first error |
| `ProductSearch.SearchRanked` | project.py:105-109 | the search result is a permutation of the concatenated per-file results, ascending by unit price, with equal unit prices in concatenation order |
| `ProductSearch.SearchHits` | project.py:98-109 | every search result contains the query in its name, has a nonzero weight and the rounded unit price, and comes from one of the searched files |
| `ReportGenerator.GenerateReport` | project.py:119-127 | the report is the header followed by the items' lines, numbered from 1 |
| `ReportGenerator.ReportLine` | project.py:123-125 | an item's line starts with `str(counter)` and ends with a line break |
| `ReportGenerator.PadShape` | project.py:123-125 | every pad is `max(0, width - len(field))` copies of two spaces |
| `ReportGenerator.ReportLineShape` | project.py:123-125 | a line starts with its number and ends with a line break, and holds no other line break when its text fields hold none |
| `ReportGenerator.ReportLinesShape` | project.py:120-126 | there is exactly one line per item, and line k shows item k with number k |
| `ReportGenerator.ReportLinesNumbered` | project.py:121-126 | line k begins with `str(k)` and ends with a line break |
| `ReportGenerator.HeaderString` | project.py:115-117 | the header starts with the numero sign '№' and ends with a line break |
| `ReportGenerator.HeaderShape` | project.py:115-117 | the header holds exactly one line break |
| `ReportGenerator.ReportNewlines` | project.py:119-127 | with single-line fields, the report holds exactly one more line break than there are items: the header plus one line per item |

## Left out

- `CsvParser.parse_csv` (file opening and the `csv` module): the model takes each price list as its rows of cells.
- `PriceReader`: listing the directory and reading the files is I/O; it pairs each parsed file with its name in listing order, and the model takes that list of pairs as the input of `SearchProduct`.
- `PriceMachine._reading_cycle`, `load_prices`, `IS_CYCLE_STOP`, `CURRENT_PRICES`: a background thread that replaces a global list once a second; concurrency is not modelled.
- `PriceMachine.export_to_html`: a fixed HTML template written to a file, with `f"{item}"` of arbitrary Python values.
- `PriceMachine.find_text` and `generate_console_report`: one-line delegations to a global and to `generate_report`.
- The interactive `input()`/`print` loop at the end of the file: console I/O.
- `re.search` with `re.IGNORECASE` is the parameter `matches`; no regular-expression engine is modelled.
- `str.lower` is a per-character mapping `lower`; Python's lowering can change a string's length (for example the dotted capital I), which the model does not capture.
- `int(str)` is modelled for ASCII digits, ASCII whitespace, a sign and single underscores between digits; non-ASCII decimal digits and non-ASCII whitespace, which Python also accepts, are not.
- `round(price / weight, 0)` is exact half-to-even rounding of the rational quotient to an integer; IEEE double division (inexact for very large operands) and the float type of the result are not modelled, and `str()` of that float in the report is the parameter `show`.
- Rounding.RoundHalfEven: Python's `price / weight` raises OverflowError when the quotient is beyond the largest double (about 1.8e308, for example a price of `1` followed by 309 zeros over a weight of 1); the model has no such error, so `ProductSearch.InPrice` and `ProductSearch.Search` return that product where the program raises. Modelling the exact overflow threshold needs IEEE double rounding, which is out of scope.
- PyInt.ParseInt: Python 3.11 and later (and the patched 3.7 to 3.10 releases) raise ValueError for a number of more than 4300 digits, a limit the interpreter can reconfigure; the model has no digit limit, so such a cell parses where those interpreters raise. The same limit makes `str(n)` raise there, which `PyInt.IntToString` does not model either.
