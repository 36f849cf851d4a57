/**
 * `ReportGenerator` (project.py): the search result as a fixed-width text
 * table. `show` stands for `str()` of the unit price, which Python holds as
 * a float (`round(x, 0)` returns one), so its text is left abstract.
 */
module ReportGenerator {
  import opened PyInt
  import opened Text
  import opened ProductSearch

  /** `"  " * (width - len(field))`: two spaces per character `field` falls short of `width`, none when it does not. */
  function Pad(width: int, field: string): string {
    Repeat("  ", width - |field|)
  }

  /** The column titles, padded, on one line that starts with the numero sign '№' and ends the line. */
  function HeaderString(): (r: string)
    ensures |r| > 0 && r[0] == '№' && r[|r| - 1] == '\n'
  {
    "№" + Repeat("  ", 5) + "Наименование" + Repeat("  ", 50) + "Цена" + Repeat("  ", 2) + "Вес"
      + Repeat("  ", 5) + "файл" + Repeat("  ", 10) + "цена за кг.\n"
  }

  /** The line of item number `counter`: number, name, price, weight, file and unit price, padded. */
  function ReportLine(counter: int, item: Product, show: int -> string): (r: string)
    ensures var number := IntToString(counter); |r| > |number| && r[..|number|] == number
    ensures r[|r| - 1] == '\n'
  {
    var number, price, weight := IntToString(counter), IntToString(item.price), IntToString(item.weight);
    number + Pad(6, number) + item.name + Pad(63, item.name)
      + price + Pad(6, price) + weight
      + Pad(8, weight) + item.file + Pad(14, item.file) + show(item.unitPrice) + "\n"
  }

  /** `render(1, data[0])`, `render(2, data[1])`, ...: one line per item, numbered from 1 as `counter` is. */
  function Numbered(data: seq<Product>, render: (int, Product) -> string): seq<string> {
    if data == [] then []
    else Numbered(data[..|data| - 1], render) + [render(|data|, data[|data| - 1])]
  }

  /** The lines of the items. */
  function ReportLines(data: seq<Product>, show: int -> string): seq<string> {
    Numbered(data, (counter, item) => ReportLine(counter, item, show))
  }

  function Join(lines: seq<string>): string {
    if lines == [] then "" else Join(lines[..|lines| - 1]) + lines[|lines| - 1]
  }

  method GenerateReport(data: seq<Product>, show: int -> string) returns (result: string)
    ensures result == HeaderString() + Join(ReportLines(data, show))
  {
    var header := HeaderString();
    result := header;
    var counter := 1;
    for i := 0 to |data|
      invariant counter == i + 1
      invariant result == header + Join(ReportLines(data[..i], show))
    {
      var line := ReportLine(counter, data[i], show);
      ReportLinesStep(data, i, show);
      AppendAssoc(header, Join(ReportLines(data[..i], show)), line);
      result := result + line;
      counter := counter + 1;
    }
    assert data[..|data|] == data;
  }

  lemma AppendAssoc(a: string, b: string, c: string)
    ensures (a + b) + c == a + (b + c)
  {
  }

  lemma NumberedStep(data: seq<Product>, i: nat, render: (int, Product) -> string)
    requires i < |data|
    ensures Join(Numbered(data[..i + 1], render)) == Join(Numbered(data[..i], render)) + render(i + 1, data[i])
  {
    var init := Numbered(data[..i], render);
    assert data[..i + 1][..i] == data[..i];
    assert (init + [render(i + 1, data[i])])[..|init|] == init;
  }

  lemma ReportLinesStep(data: seq<Product>, i: nat, show: int -> string)
    requires i < |data|
    ensures Join(ReportLines(data[..i + 1], show)) ==
      Join(ReportLines(data[..i], show)) + ReportLine(i + 1, data[i], show)
  {
    NumberedStep(data, i, (counter, item) => ReportLine(counter, item, show));
  }

  /** Every pad is `max(0, width - len(field))` copies of two spaces. */
  lemma PadShape(width: int, field: string)
    ensures |Pad(width, field)| == 2 * (if width - |field| <= 0 then 0 else width - |field|)
    ensures forall c :: c in Pad(width, field) ==> c == ' '
  {
    RepeatShape("  ", width - |field|);
  }

  lemma {:induction false} NumberedShape(data: seq<Product>, render: (int, Product) -> string)
    ensures |Numbered(data, render)| == |data|
    ensures forall k :: 0 <= k < |data| ==> Numbered(data, render)[k] == render(k + 1, data[k])
  {
    if data != [] {
      var init := data[..|data| - 1];
      NumberedShape(init, render);
      assert forall k :: 0 <= k < |init| ==> init[k] == data[k];
    }
  }

  /** One line per item, the k-th showing item k. */
  lemma ReportLinesShape(data: seq<Product>, show: int -> string)
    ensures |ReportLines(data, show)| == |data|
    ensures forall k :: 0 <= k < |data| ==> ReportLines(data, show)[k] == ReportLine(k + 1, data[k], show)
  {
    NumberedShape(data, (counter, item) => ReportLine(counter, item, show));
  }

  /** Line k of the items starts with the number k and ends with a line break. */
  lemma ReportLinesNumbered(data: seq<Product>, show: int -> string)
    ensures forall k :: 0 <= k < |ReportLines(data, show)| ==>
      var line := ReportLines(data, show)[k];
      IsPrefix(IntToString(k + 1), line) && |line| > 0 && line[|line| - 1] == '\n'
  {
    ReportLinesShape(data, show);
    forall k | 0 <= k < |data| {
      ReportLineShape(k + 1, data[k], show);
    }
  }

  /** The fields that carry the items' own text hold no line break. */
  predicate SingleLineFields(data: seq<Product>, show: int -> string) {
    forall k :: 0 <= k < |data| ==> '\n' !in data[k].name && '\n' !in data[k].file && '\n' !in show(data[k].unitPrice)
  }

  lemma NoNewlineInNumber(n: int)
    ensures Count('\n', IntToString(n)) == 0
  {
    CountAbsent('\n', IntToString(n));
  }

  lemma NoNewlineInPad(width: int, field: string)
    ensures Count('\n', Pad(width, field)) == 0
  {
    PadShape(width, field);
    CountAbsent('\n', Pad(width, field));
  }

  /** A line starts with its number, ends with a line break, and holds no other one. */
  lemma ReportLineShape(counter: int, item: Product, show: int -> string)
    ensures var line := ReportLine(counter, item, show);
      IsPrefix(IntToString(counter), line) && |line| > 0 && line[|line| - 1] == '\n'
    ensures '\n' !in item.name && '\n' !in item.file && '\n' !in show(item.unitPrice) ==>
      Count('\n', ReportLine(counter, item, show)) == 1
  {
    var number, price, weight := IntToString(counter), IntToString(item.price), IntToString(item.weight);
    var line := ReportLine(counter, item, show);
    assert line == number + (line[|number|..]);
    if '\n' !in item.name && '\n' !in item.file && '\n' !in show(item.unitPrice) {
      NoNewlineInNumber(counter);
      NoNewlineInNumber(item.price);
      NoNewlineInNumber(item.weight);
      NoNewlineInPad(6, number);
      NoNewlineInPad(63, item.name);
      NoNewlineInPad(6, price);
      NoNewlineInPad(8, weight);
      NoNewlineInPad(14, item.file);
      CountAbsent('\n', item.name);
      CountAbsent('\n', item.file);
      CountAbsent('\n', show(item.unitPrice));
      var s1 := number + Pad(6, number);
      var s2 := s1 + item.name;
      var s3 := s2 + Pad(63, item.name);
      var s4 := s3 + price;
      var s5 := s4 + Pad(6, price);
      var s6 := s5 + weight;
      var s7 := s6 + Pad(8, weight);
      var s8 := s7 + item.file;
      var s9 := s8 + Pad(14, item.file);
      var s10 := s9 + show(item.unitPrice);
      assert line == s10 + "\n";
      CountConcat('\n', number, Pad(6, number));
      CountConcat('\n', s1, item.name);
      CountConcat('\n', s2, Pad(63, item.name));
      CountConcat('\n', s3, price);
      CountConcat('\n', s4, Pad(6, price));
      CountConcat('\n', s5, weight);
      CountConcat('\n', s6, Pad(8, weight));
      CountConcat('\n', s7, item.file);
      CountConcat('\n', s8, Pad(14, item.file));
      CountConcat('\n', s9, show(item.unitPrice));
      CountConcat('\n', s10, "\n");
      assert Count('\n', "\n") == 1;
    }
  }

  lemma HeaderShape()
    ensures Count('\n', HeaderString()) == 1
  {
    var r5, r50, r2, r10 := Repeat("  ", 5), Repeat("  ", 50), Repeat("  ", 2), Repeat("  ", 10);
    RepeatShape("  ", 5);
    RepeatShape("  ", 50);
    RepeatShape("  ", 2);
    RepeatShape("  ", 10);
    var s1 := "№" + r5;
    var s2 := s1 + "Наименование";
    var s3 := s2 + r50;
    var s4 := s3 + "Цена";
    var s5 := s4 + r2;
    var s6 := s5 + "Вес";
    var s7 := s6 + r5;
    var s8 := s7 + "файл";
    var s9 := s8 + r10;
    assert HeaderString() == s9 + "цена за кг.\n";
    CountAbsent('\n', s9);
    CountConcat('\n', s9, "цена за кг.\n");
    assert "цена за кг.\n" == "цена за кг." + "\n";
    CountConcat('\n', "цена за кг.", "\n");
    CountAbsent('\n', "цена за кг.");
  }

  lemma {:induction false} LinesNewlines(data: seq<Product>, show: int -> string)
    requires SingleLineFields(data, show)
    ensures Count('\n', Join(ReportLines(data, show))) == |data|
  {
    if data != [] {
      var n := |data| - 1;
      var init, line := Join(ReportLines(data[..n], show)), ReportLine(n + 1, data[n], show);
      assert Count('\n', init) == n by {
        assert forall k :: 0 <= k < n ==> data[..n][k] == data[k];
        LinesNewlines(data[..n], show);
      }
      assert Count('\n', line) == 1 by {
        ReportLineShape(n + 1, data[n], show);
      }
      assert Join(ReportLines(data, show)) == init + line by {
        ReportLinesStep(data, n, show);
        assert data[..n + 1] == data;
      }
      CountConcat('\n', init, line);
    }
  }

  /**
   * The report is the header line followed by exactly one line per item: when
   * no name, file name or unit-price text holds a line break, the report holds
   * one more line break than there are items.
   */
  lemma ReportNewlines(data: seq<Product>, show: int -> string)
    requires SingleLineFields(data, show)
    ensures Count('\n', HeaderString() + Join(ReportLines(data, show))) == |data| + 1
  {
    HeaderShape();
    LinesNewlines(data, show);
    CountConcat('\n', HeaderString(), Join(ReportLines(data, show)));
  }
}
