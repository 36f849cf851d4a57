/**
 * `ProductSearch` (project.py): find the name, price and weight columns of a
 * price list by their header, pick the rows whose name contains the query,
 * and rank the picks of all price lists by price per unit of weight.
 *
 * A price list is its rows of cells, row 0 the header. `lower` stands for
 * the per-character lowercase mapping of `str.lower`.
 */
module ProductSearch {
  import opened Wrappers
  import opened PyInt
  import opened Text
  import opened Rounding
  import StableSort

  const NameStrings: seq<string> := ["название", "продукт", "товар", "наименование"]
  const PriceStrings: seq<string> := ["цена", "розница"]
  const WeightStrings: seq<string> := ["фасовка", "масса", "вес"]

  datatype Role = NameRole | PriceRole | WeightRole

  datatype Indexes = Indexes(name: nat, price: nat, weight: nat)

  /** One search hit: the tuple (name, price, weight, filename, unit price). */
  datatype Product = Product(name: string, price: int, weight: int, file: string, unitPrice: int)

  /** The exceptions the search lets through, each aborting the whole search. */
  datatype SearchError =
    | MissingHeaderRow                                                       // price_data[0] of an empty list: IndexError
    | IncompleteHeader(name: Option<nat>, price: Option<nat>, weight: Option<nat>)  // the IndexError raised by _get_indexes
    | ShortRow(row: nat)                                                     // a cell index past the end of a row: IndexError
    | NotAnInteger(row: nat, cell: string)                                   // int(cell) raises ValueError
    | ZeroWeight(row: nat)                                                   // price / 0 raises ZeroDivisionError

  // ---------------------------------------------------------------- headers

  /** The branch of the if/elif chain a header cell takes: exact comparison, name first. */
  function RoleOf(header: string): Option<Role> {
    if header in NameStrings then Some(NameRole)
    else if header in PriceStrings then Some(PriceRole)
    else if header in WeightStrings then Some(WeightRole)
    else None
  }

  /** The position of the last header cell that takes `role`, if any. */
  function LastOf(headers: seq<string>, role: Role): (r: Option<nat>)
    ensures r.Some? ==> r.value < |headers| && RoleOf(headers[r.value]) == Some(role)
    ensures r.Some? ==> forall j :: r.value < j < |headers| ==> RoleOf(headers[j]) != Some(role)
    ensures r.None? ==> forall j :: 0 <= j < |headers| ==> RoleOf(headers[j]) != Some(role)
  {
    if headers == [] then None
    else if RoleOf(headers[|headers| - 1]) == Some(role) then Some(|headers| - 1)
    else LastOf(headers[..|headers| - 1], role)
  }

  /** What `_get_indexes` returns or raises. */
  function Resolve(headers: seq<string>): Result<Indexes, SearchError> {
    var name, price, weight := LastOf(headers, NameRole), LastOf(headers, PriceRole), LastOf(headers, WeightRole);
    if name.Some? && price.Some? && weight.Some? then Ok(Indexes(name.value, price.value, weight.value))
    else Err(IncompleteHeader(name, price, weight))
  }

  method GetIndexes(headers: seq<string>) returns (r: Result<Indexes, SearchError>)
    ensures r == Resolve(headers)
  {
    var nameIndex: Option<nat> := None;
    var priceIndex: Option<nat> := None;
    var weightIndex: Option<nat> := None;
    for index := 0 to |headers|
      invariant nameIndex == LastOf(headers[..index], NameRole)
      invariant priceIndex == LastOf(headers[..index], PriceRole)
      invariant weightIndex == LastOf(headers[..index], WeightRole)
    {
      var header := headers[index];
      if header in NameStrings {
        nameIndex := Some(index);
      } else if header in PriceStrings {
        priceIndex := Some(index);
      } else if header in WeightStrings {
        weightIndex := Some(index);
      }
      assert headers[..index + 1][..index] == headers[..index];
    }
    assert headers[..|headers|] == headers;
    if nameIndex.Some? && priceIndex.Some? && weightIndex.Some? {
      return Ok(Indexes(nameIndex.value, priceIndex.value, weightIndex.value));
    }
    return Err(IncompleteHeader(nameIndex, priceIndex, weightIndex));
  }

  /** No label is a synonym of two roles, so the if/elif order never hides a match. */
  lemma RoleOfIsMembership(header: string)
    ensures RoleOf(header) == Some(NameRole) <==> header in NameStrings
    ensures RoleOf(header) == Some(PriceRole) <==> header in PriceStrings
    ensures RoleOf(header) == Some(WeightRole) <==> header in WeightStrings
  {
  }

  predicate Present(headers: seq<string>, synonyms: seq<string>) {
    exists i :: 0 <= i < |headers| && headers[i] in synonyms
  }

  /** `i` is the last position whose header is, exactly, one of `synonyms`. */
  predicate IsLastIn(headers: seq<string>, synonyms: seq<string>, i: nat) {
    && i < |headers|
    && headers[i] in synonyms
    && forall j :: i < j < |headers| ==> headers[j] !in synonyms
  }

  /**
   * Header resolution succeeds exactly when every role has a header equal to
   * one of its synonyms, and then each index is the last such header.
   */
  lemma ResolveLastMatch(headers: seq<string>)
    ensures Resolve(headers).Ok? <==>
      Present(headers, NameStrings) && Present(headers, PriceStrings) && Present(headers, WeightStrings)
    ensures Resolve(headers).Ok? ==>
      && IsLastIn(headers, NameStrings, Resolve(headers).value.name)
      && IsLastIn(headers, PriceStrings, Resolve(headers).value.price)
      && IsLastIn(headers, WeightStrings, Resolve(headers).value.weight)
  {
    forall h | h in headers {
      RoleOfIsMembership(h);
    }
  }

  /** Labels are compared as they are: a capital letter or a space is enough to miss a role. */
  lemma ResolveIsExact()
    ensures Resolve(["наименование", "цена", "вес"]) == Ok(Indexes(0, 1, 2))
    ensures Resolve(["Наименование", "Цена", "Вес"]).Err?
    ensures Resolve(["наименование", "цена ", "вес"]).Err?
  {
    var h := ["наименование", "цена", "вес"];
    ResolveLastMatch(h);
    assert h[0] in NameStrings && h[1] in PriceStrings && h[2] in WeightStrings;
  }

  /** When a role's label occurs twice, the later column is the one used. */
  lemma ResolveLastWins()
    ensures Resolve(["товар", "цена", "вес", "продукт"]) == Ok(Indexes(3, 1, 2))
  {
    var h := ["товар", "цена", "вес", "продукт"];
    ResolveLastMatch(h);
    assert h[3] in NameStrings && h[1] in PriceStrings && h[2] in WeightStrings;
  }

  // ------------------------------------------------------------------- rows

  /** The test of line 98: the lowercased query is a substring of the lowercased name. */
  predicate NameMatches(query: string, name: string, lower: char -> char) {
    Contains(Lower(query, lower), Lower(name, lower))
  }

  /** One data row: skipped (None), turned into a product, or the exception it raises. */
  function ProjectRow(row: seq<string>, rowNo: nat, idx: Indexes, query: string, file: string, lower: char -> char)
    : (r: Result<Option<Product>, SearchError>)
    ensures r == Ok(None) <==> idx.name < |row| && !NameMatches(query, row[idx.name], lower)
    ensures r.Ok? && r.value.Some? ==>
      var p := r.value.value;
      && idx.name < |row| && idx.price < |row| && idx.weight < |row|
      && p.name == row[idx.name] && NameMatches(query, p.name, lower) && p.file == file
      && ParseInt(row[idx.price]) == Some(p.price) && ParseInt(row[idx.weight]) == Some(p.weight)
      && p.weight != 0 && NearestEven(p.unitPrice, p.price, p.weight)
  {
    if idx.name >= |row| then Err(ShortRow(rowNo))
    else if !NameMatches(query, row[idx.name], lower) then Ok(None)
    else if idx.price >= |row| then Err(ShortRow(rowNo))
    else
      var price := ParseInt(row[idx.price]);
      if price.None? then Err(NotAnInteger(rowNo, row[idx.price]))
      else if idx.weight >= |row| then Err(ShortRow(rowNo))
      else
        var weight := ParseInt(row[idx.weight]);
        if weight.None? then Err(NotAnInteger(rowNo, row[idx.weight]))
        else if weight.value == 0 then Err(ZeroWeight(rowNo))
        else Ok(Some(Product(row[idx.name], price.value, weight.value, file, RoundHalfEven(price.value, weight.value))))
  }

  /** The loop of lines 97-102 over `rows`, where `rows[k]` is row `k + 1` of the price list. */
  function Collect(rows: seq<seq<string>>, idx: Indexes, query: string, file: string, lower: char -> char)
    : Result<seq<Product>, SearchError>
  {
    if rows == [] then Ok([])
    else
      var done := Collect(rows[..|rows| - 1], idx, query, file, lower);
      if done.Err? then done
      else match ProjectRow(rows[|rows| - 1], |rows|, idx, query, file, lower)
        case Err(e) => Err(e)
        case Ok(None) => done
        case Ok(Some(p)) => Ok(done.value + [p])
  }

  /** What `_get_product_in_price` returns or raises. */
  function InPrice(priceData: seq<seq<string>>, query: string, file: string, lower: char -> char)
    : Result<seq<Product>, SearchError>
  {
    if priceData == [] then Err(MissingHeaderRow)
    else match Resolve(priceData[0])
      case Err(e) => Err(e)
      case Ok(idx) => Collect(priceData[1..], idx, query, file, lower)
  }

  lemma {:induction false} CollectKeepsError(rows: seq<seq<string>>, k: nat, idx: Indexes, query: string, file: string, lower: char -> char)
    requires k <= |rows| && Collect(rows[..k], idx, query, file, lower).Err?
    ensures Collect(rows, idx, query, file, lower) == Collect(rows[..k], idx, query, file, lower)
    decreases |rows| - k
  {
    if k < |rows| {
      assert rows[..k + 1][..k] == rows[..k];
      CollectKeepsError(rows, k + 1, idx, query, file, lower);
    } else {
      assert rows[..k] == rows;
    }
  }

  method GetProductInPrice(priceData: seq<seq<string>>, productName: string, filename: string, lower: char -> char)
    returns (r: Result<seq<Product>, SearchError>)
    ensures r == InPrice(priceData, productName, filename, lower)
  {
    if |priceData| == 0 {
      return Err(MissingHeaderRow);
    }
    var indexes := GetIndexes(priceData[0]);
    if indexes.Err? {
      return Err(indexes.error);
    }
    var idx := indexes.value;
    var rows := priceData[1..];
    var products: seq<Product> := [];
    for i := 1 to |priceData|
      invariant Collect(rows[..i - 1], idx, productName, filename, lower) == Ok(products)
    {
      var product := priceData[i];
      assert rows[..i][..i - 1] == rows[..i - 1] && rows[..i][i - 1] == product;
      if idx.name >= |product| {
        CollectKeepsError(rows, i, idx, productName, filename, lower);
        return Err(ShortRow(i));
      }
      if Contains(Lower(productName, lower), Lower(product[idx.name], lower)) {
        var name := product[idx.name];
        if idx.price >= |product| {
          CollectKeepsError(rows, i, idx, productName, filename, lower);
          return Err(ShortRow(i));
        }
        var price := ParseInt(product[idx.price]);
        if price.None? {
          CollectKeepsError(rows, i, idx, productName, filename, lower);
          return Err(NotAnInteger(i, product[idx.price]));
        }
        if idx.weight >= |product| {
          CollectKeepsError(rows, i, idx, productName, filename, lower);
          return Err(ShortRow(i));
        }
        var weight := ParseInt(product[idx.weight]);
        if weight.None? {
          CollectKeepsError(rows, i, idx, productName, filename, lower);
          return Err(NotAnInteger(i, product[idx.weight]));
        }
        if weight.value == 0 {
          CollectKeepsError(rows, i, idx, productName, filename, lower);
          return Err(ZeroWeight(i));
        }
        products := products + [Product(name, price.value, weight.value, filename, RoundHalfEven(price.value, weight.value))];
      }
    }
    assert rows[..|priceData| - 1] == rows;
    return Ok(products);
  }

  // ------------------------------------------------------ rows: properties

  /** A matching row that cannot become a product: a missing cell, a non-integer, or a zero weight. */
  predicate Malformed(row: seq<string>, idx: Indexes) {
    || idx.price >= |row| || ParseInt(row[idx.price]).None?
    || idx.weight >= |row| || ParseInt(row[idx.weight]).None?
    || ParseInt(row[idx.weight]).value == 0
  }

  /** A row raises when its name cell is missing, or when its name matches and it is malformed; other rows are never parsed. */
  predicate RowRaises(row: seq<string>, idx: Indexes, query: string, lower: char -> char) {
    idx.name >= |row| || (NameMatches(query, row[idx.name], lower) && Malformed(row, idx))
  }

  lemma ProjectRowRaises(row: seq<string>, rowNo: nat, idx: Indexes, query: string, file: string, lower: char -> char)
    ensures ProjectRow(row, rowNo, idx, query, file, lower).Err? <==> RowRaises(row, idx, query, lower)
  {
  }

  /**
   * The rows raise nothing exactly when no row raises; otherwise the error is
   * the one of the first row that raises.
   */
  lemma {:induction false} CollectFirstError(rows: seq<seq<string>>, idx: Indexes, query: string, file: string, lower: char -> char)
    ensures Collect(rows, idx, query, file, lower).Ok? <==> forall j :: 0 <= j < |rows| ==> !RowRaises(rows[j], idx, query, lower)
    ensures Collect(rows, idx, query, file, lower).Err? ==>
      exists j :: 0 <= j < |rows| && ProjectRow(rows[j], j + 1, idx, query, file, lower) == Err(Collect(rows, idx, query, file, lower).error)
        && forall i :: 0 <= i < j ==> !RowRaises(rows[i], idx, query, lower)
  {
    if rows != [] {
      var n := |rows| - 1;
      var init := rows[..n];
      CollectFirstError(init, idx, query, file, lower);
      ProjectRowRaises(rows[n], n + 1, idx, query, file, lower);
      assert forall j :: 0 <= j < n ==> init[j] == rows[j];
      forall j | 0 <= j < n {
        ProjectRowRaises(rows[j], j + 1, idx, query, file, lower);
      }
      if Collect(init, idx, query, file, lower).Err? {
        var j :| 0 <= j < n && ProjectRow(init[j], j + 1, idx, query, file, lower) == Err(Collect(init, idx, query, file, lower).error)
          && forall i :: 0 <= i < j ==> !RowRaises(init[i], idx, query, lower);
        assert ProjectRow(rows[j], j + 1, idx, query, file, lower) == Err(Collect(rows, idx, query, file, lower).error);
      }
    }
  }

  /** The rows whose name cell exists and contains the query, in row order. */
  function Matching(rows: seq<seq<string>>, idx: Indexes, query: string, lower: char -> char): seq<seq<string>> {
    if rows == [] then []
    else
      var row := rows[|rows| - 1];
      Matching(rows[..|rows| - 1], idx, query, lower)
        + (if idx.name < |row| && NameMatches(query, row[idx.name], lower) then [row] else [])
  }

  /** The product a well-formed matching row becomes. */
  predicate ProductOf(p: Product, row: seq<string>, idx: Indexes, file: string) {
    && idx.name < |row| && idx.price < |row| && idx.weight < |row|
    && p.name == row[idx.name]
    && ParseInt(row[idx.price]) == Some(p.price)
    && ParseInt(row[idx.weight]) == Some(p.weight)
    && p.file == file
    && p.weight != 0
    && p.unitPrice == RoundHalfEven(p.price, p.weight)
  }

  /**
   * What a price list contributes: one product per matching row, in row order,
   * carrying that row's name, its parsed price and weight, the file name and
   * the rounded unit price.
   */
  lemma {:induction false} CollectSelects(rows: seq<seq<string>>, idx: Indexes, query: string, file: string, lower: char -> char)
    requires Collect(rows, idx, query, file, lower).Ok?
    ensures var ps, ms := Collect(rows, idx, query, file, lower).value, Matching(rows, idx, query, lower);
      |ps| == |ms| && forall k :: 0 <= k < |ps| ==> ProductOf(ps[k], ms[k], idx, file)
  {
    if rows != [] {
      CollectSelects(rows[..|rows| - 1], idx, query, file, lower);
    }
  }

  /** Every row that is kept is a row of the list whose name contains the query, and every such row is kept. */
  lemma {:induction false} MatchingMembers(rows: seq<seq<string>>, idx: Indexes, query: string, lower: char -> char, row: seq<string>)
    ensures row in Matching(rows, idx, query, lower) <==>
      row in rows && idx.name < |row| && NameMatches(query, row[idx.name], lower)
  {
    if rows != [] {
      var init := rows[..|rows| - 1];
      MatchingMembers(init, idx, query, lower, row);
      assert rows == init + [rows[|rows| - 1]];
    }
  }

  /** Python's `"" in s` is true: the empty query keeps every row that has a name cell. */
  lemma {:induction false} EmptyQueryMatchesAll(rows: seq<seq<string>>, idx: Indexes, lower: char -> char)
    requires forall j :: 0 <= j < |rows| ==> idx.name < |rows[j]|
    ensures Matching(rows, idx, "", lower) == rows
  {
    if rows != [] {
      var row := rows[|rows| - 1];
      EmptyQueryMatchesAll(rows[..|rows| - 1], idx, lower);
      assert Lower("", lower) == "";
      assert IsPrefix("", Lower(row[idx.name], lower));
      assert rows == rows[..|rows| - 1] + [row];
    }
  }

  // ----------------------------------------------------------------- search

  /** The sort key `lambda x: x[4]`. */
  function UnitPrice(p: Product): int {
    p.unitPrice
  }

  /** The loop of lines 107-108: the price lists' products, list after list. */
  function Gather(productsData: seq<(seq<seq<string>>, string)>, query: string, lower: char -> char)
    : Result<seq<Product>, SearchError>
  {
    if productsData == [] then Ok([])
    else
      var done := Gather(productsData[..|productsData| - 1], query, lower);
      var (priceData, filename) := productsData[|productsData| - 1];
      if done.Err? then done
      else match InPrice(priceData, query, filename, lower)
        case Err(e) => Err(e)
        case Ok(ps) => Ok(done.value + ps)
  }

  /** What `search_product` returns or raises. */
  function Search(productsData: seq<(seq<seq<string>>, string)>, query: string, lower: char -> char)
    : Result<seq<Product>, SearchError>
  {
    match Gather(productsData, query, lower)
    case Err(e) => Err(e)
    case Ok(all) => Ok(StableSort.SortBy(all, UnitPrice))
  }

  lemma {:induction false} GatherKeepsError(files: seq<(seq<seq<string>>, string)>, k: nat, query: string, lower: char -> char)
    requires k <= |files| && Gather(files[..k], query, lower).Err?
    ensures Gather(files, query, lower) == Gather(files[..k], query, lower)
    decreases |files| - k
  {
    if k < |files| {
      assert files[..k + 1][..k] == files[..k];
      GatherKeepsError(files, k + 1, query, lower);
    } else {
      assert files[..k] == files;
    }
  }

  method SearchProduct(productsData: seq<(seq<seq<string>>, string)>, productName: string, lower: char -> char)
    returns (r: Result<seq<Product>, SearchError>)
    ensures r == Search(productsData, productName, lower)
  {
    var result: seq<Product> := [];
    for i := 0 to |productsData|
      invariant Gather(productsData[..i], productName, lower) == Ok(result)
    {
      var (priceData, filename) := productsData[i];
      var found := GetProductInPrice(priceData, productName, filename, lower);
      assert productsData[..i + 1][..i] == productsData[..i];
      if found.Err? {
        GatherKeepsError(productsData, i + 1, productName, lower);
        return Err(found.error);
      }
      result := result + found.value;
    }
    assert productsData[..|productsData|] == productsData;
    return Ok(StableSort.SortBy(result, UnitPrice));
  }

  /**
   * The search result is a permutation of the concatenated per-list results,
   * ascending by unit price, and entries with equal unit price keep their
   * concatenation order.
   */
  lemma SearchRanked(productsData: seq<(seq<seq<string>>, string)>, query: string, lower: char -> char)
    ensures Search(productsData, query, lower).Ok? <==> Gather(productsData, query, lower).Ok?
    ensures Search(productsData, query, lower).Ok? ==>
      var r, all := Search(productsData, query, lower).value, Gather(productsData, query, lower).value;
      && multiset(r) == multiset(all)
      && StableSort.Sorted(r, UnitPrice)
      && forall k :: StableSort.WithKey(r, UnitPrice, k) == StableSort.WithKey(all, UnitPrice, k)
  {
    if Gather(productsData, query, lower).Ok? {
      var all := Gather(productsData, query, lower).value;
      forall k {
        StableSort.SortByStable(all, UnitPrice, k);
      }
    }
  }

  /** A hit of a price list: its name contains the query, and its unit price is its price over its nonzero weight, rounded. */
  predicate Hit(p: Product, query: string, lower: char -> char) {
    NameMatches(query, p.name, lower) && p.weight != 0 && p.unitPrice == RoundHalfEven(p.price, p.weight)
  }

  lemma {:induction false} CollectHits(rows: seq<seq<string>>, idx: Indexes, query: string, file: string, lower: char -> char)
    requires Collect(rows, idx, query, file, lower).Ok?
    ensures forall p :: p in Collect(rows, idx, query, file, lower).value ==> Hit(p, query, lower) && p.file == file
  {
    if rows != [] {
      CollectHits(rows[..|rows| - 1], idx, query, file, lower);
    }
  }

  lemma {:induction false} GatherHits(productsData: seq<(seq<seq<string>>, string)>, query: string, lower: char -> char)
    requires Gather(productsData, query, lower).Ok?
    ensures forall p :: p in Gather(productsData, query, lower).value ==>
      Hit(p, query, lower) && exists i :: 0 <= i < |productsData| && p.file == productsData[i].1
  {
    if productsData != [] {
      var n := |productsData| - 1;
      GatherHits(productsData[..n], query, lower);
      var (priceData, filename) := productsData[n];
      if priceData != [] && Resolve(priceData[0]).Ok? {
        CollectHits(priceData[1..], Resolve(priceData[0]).value, query, filename, lower);
      }
      forall p | p in Gather(productsData, query, lower).value
        ensures Hit(p, query, lower) && exists i :: 0 <= i < |productsData| && p.file == productsData[i].1
      {
        if p in Gather(productsData[..n], query, lower).value {
          var i :| 0 <= i < n && p.file == productsData[..n][i].1;
          assert p.file == productsData[i].1;
        } else {
          assert p.file == productsData[n].1;
        }
      }
    }
  }

  /** Every entry of the search result is a hit for the query and comes from one of the searched files. */
  lemma SearchHits(productsData: seq<(seq<seq<string>>, string)>, query: string, lower: char -> char)
    requires Search(productsData, query, lower).Ok?
    ensures forall p :: p in Search(productsData, query, lower).value ==>
      Hit(p, query, lower) && exists i :: 0 <= i < |productsData| && p.file == productsData[i].1
  {
    var all := Gather(productsData, query, lower).value;
    GatherHits(productsData, query, lower);
    forall p | p in Search(productsData, query, lower).value
      ensures p in all
    {
      assert p in multiset(StableSort.SortBy(all, UnitPrice));
    }
  }
}
