/**
 * The reports page: the report filter, the counts behind its three charts,
 * the labels of types and statuses, and the two exports (a spreadsheet row
 * per record, and a PDF whose lines run down the page and onto new pages).
 */
module Reports {
  import opened Wrappers
  import opened Text
  import opened Seqs

  /** A report record. */
  datatype Report = Report(kind: string, resource: string, lab: string, date: string, user: string, status: string)

  // ----- the filter -----

  /** The generate button's test: the same type, and the date filter empty or a prefix of the record's date. */
  predicate ReportMatches(r: Report, kind: string, date: string) {
    r.kind == kind && (date == "" || StartsWith(r.date, date))
  }

  function Matching(kind: string, date: string): Report -> bool {
    (r: Report) => ReportMatches(r, kind, date)
  }

  /** The generate button: with no data loaded it only warns (`None`); otherwise the matching records. */
  function Generate(data: seq<Report>, kind: string, date: string): (r: Option<seq<Report>>)
    ensures r.None? <==> |data| == 0
  {
    if |data| == 0 then None else Some(Keep(data, Matching(kind, date)))
  }

  /** The generated list is the matching records, in order, each as often as in the data. */
  lemma GenerateMeaning(data: seq<Report>, kind: string, date: string)
    requires |data| > 0
    ensures IsSubseq(Generate(data, kind, date).value, data)
    ensures forall r :: (r in Generate(data, kind, date).value <==> r in data && ReportMatches(r, kind, date))
    ensures forall r ::
              multiset(Generate(data, kind, date).value)[r] == if ReportMatches(r, kind, date) then multiset(data)[r] else 0
  {
    KeepIsSubseq(data, Matching(kind, date));
    KeepMultiset(data, Matching(kind, date));
  }

  /** With no date every record of the type is listed, and none of another type. */
  lemma GenerateWithoutDate(data: seq<Report>, kind: string)
    requires |data| > 0
    ensures forall r :: (r in Generate(data, kind, "").value <==> r in data && r.kind == kind)
  {
  }

  // ----- the labels -----

  /** `translateType(type)`. */
  function TranslateType(kind: string): (r: string)
    ensures r == "Desconocido" <==> kind !in {"usage", "stock", "maintenance"}
  {
    if kind == "usage" then "Uso de Recursos"
    else if kind == "stock" then "Stock Actual"
    else if kind == "maintenance" then "Historial de Mantenimiento"
    else "Desconocido"
  }

  /** `translateStatus(status)` of this page. */
  function TranslateStatus(status: string): (r: string)
    ensures r == "Desconocido" <==> status !in {"completed", "maintenance", "low-stock"}
  {
    if status == "completed" then "Completado"
    else if status == "maintenance" then "Mantenimiento"
    else if status == "low-stock" then "Stock Bajo"
    else "Desconocido"
  }

  // ----- the chart counts -----

  function OfType(kind: string): Report -> bool {
    (r: Report) => r.kind == kind
  }

  function LabOf(): Report -> string { (r: Report) => r.lab }

  function DateOf(): Report -> string { (r: Report) => r.date }

  /** The key each record is counted under. */
  function Keys(data: seq<Report>, key: Report -> string): (r: seq<string>)
    ensures |r| == |data| && forall i :: 0 <= i < |r| ==> r[i] == key(data[i])
  {
    if |data| == 0 then [] else [key(data[0])] + Keys(data[1..], key)
  }

  /** The sum of the counts of `labels` (`Object.values(counts)` added up). */
  function Total(labels: seq<string>, counts: map<string, nat>): nat {
    if |labels| == 0 then 0
    else (if labels[0] in counts then counts[labels[0]] else 0) + Total(labels[1..], counts)
  }

  lemma {:induction false} TotalAppend(a: seq<string>, b: seq<string>, counts: map<string, nat>)
    ensures Total(a + b, counts) == Total(a, counts) + Total(b, counts)
  {
    if |a| == 0 {
      assert a + b == b;
    } else {
      assert (a + b)[1..] == a[1..] + b;
      TotalAppend(a[1..], b, counts);
    }
  }

  /** Setting the count of a key not among the labels leaves the total. */
  lemma {:induction false} TotalFrame(labels: seq<string>, counts: map<string, nat>, k: string, v: nat)
    requires k !in labels
    ensures Total(labels, counts[k := v]) == Total(labels, counts)
  {
    if |labels| > 0 {
      TotalFrame(labels[1..], counts, k, v);
    }
  }

  /** Adding one to the count of a key listed once adds one to the total. */
  lemma {:induction false} TotalBump(labels: seq<string>, counts: map<string, nat>, k: string)
    requires Distinct(labels) && k in labels && k in counts
    ensures Total(labels, counts[k := counts[k] + 1]) == Total(labels, counts) + 1
  {
    if labels[0] == k {
      assert k !in labels[1..] by {
        forall j | 0 <= j < |labels| - 1 ensures labels[1..][j] != k {
          assert labels[1..][j] == labels[j + 1];
        }
      }
      TotalFrame(labels[1..], counts, k, counts[k] + 1);
    } else {
      assert k in labels[1..] by {
        var j :| 0 <= j < |labels| && labels[j] == k;
        assert labels[1..][j - 1] == k;
      }
      assert Distinct(labels[1..]) by {
        forall i, j | 0 <= i < j < |labels| - 1 ensures labels[1..][i] != labels[1..][j] {
          assert labels[1..][i] == labels[i + 1] && labels[1..][j] == labels[j + 1];
        }
      }
      TotalBump(labels[1..], counts, k);
    }
  }

  /**
   * `counts[key] = (counts[key] || 0) + 1` over the keys: the labels are
   * the different keys, each counted as often as it occurs, so the counts
   * add up to the number of keys.
   */
  method Tally(keys: seq<string>) returns (labels: seq<string>, counts: map<string, nat>)
    ensures Distinct(labels)
    ensures forall k :: k in labels <==> k in keys
    ensures forall k :: k in counts <==> k in keys
    ensures forall k :: k in counts ==> counts[k] == multiset(keys)[k]
    ensures Total(labels, counts) == |keys|
  {
    labels, counts := [], map[];
    for i := 0 to |keys|
      invariant Distinct(labels)
      invariant forall k :: k in labels <==> k in keys[..i]
      invariant forall k :: k in counts <==> k in keys[..i]
      invariant forall k :: k in counts ==> counts[k] == multiset(keys[..i])[k]
      invariant Total(labels, counts) == i
    {
      var k := keys[i];
      assert keys[..i + 1] == keys[..i] + [k];
      if k in counts {
        TotalBump(labels, counts, k);
        counts := counts[k := counts[k] + 1];
      } else {
        TotalFrame(labels, counts, k, 1);
        TotalAppend(labels, [k], counts[k := 1]);
        labels := labels + [k];
        counts := counts[k := 1];
      }
    }
    assert keys[..|keys|] == keys;
  }

  function OfTypeWith(kind: string, key: Report -> string, value: string): Report -> bool {
    (r: Report) => r.kind == kind && key(r) == value
  }

  /** The key counted for a value is the number of records of the type with that key. */
  lemma {:induction false} TallyCountsRecords(data: seq<Report>, kind: string, key: Report -> string, value: string)
    ensures multiset(Keys(Keep(data, OfType(kind)), key))[value] == Count(data, OfTypeWith(kind, key, value))
  {
    if |data| > 0 {
      TallyCountsRecords(data[1..], kind, key, value);
      if data[0].kind == kind {
        assert Keys(Keep(data, OfType(kind)), key) == [key(data[0])] + Keys(Keep(data[1..], OfType(kind)), key);
      }
    }
  }

  /** The data of the three charts. */
  datatype Charts = Charts(usageLabs: seq<string>, usageCounts: map<string, nat>,
                           stockNormal: nat, stockLow: nat,
                           maintenanceDates: seq<string>, maintenanceCounts: map<string, nat>)

  function StockWith(status: string): Report -> bool {
    (r: Report) => r.kind == "stock" && r.status == status
  }

  /**
   * `renderCharts(data)`: nothing without data; otherwise the usage
   * records counted by laboratory, the stock records counted as `completed`
   * (normal) and `low-stock` (low), and the maintenance records counted by
   * date.
   */
  method RenderCharts(data: seq<Report>) returns (charts: Option<Charts>)
    ensures charts.None? <==> |data| == 0
    ensures charts.Some? ==>
      var c := charts.value;
      (forall lab :: lab in c.usageLabs <==> lab in c.usageCounts)
      && (forall lab :: lab in c.usageCounts ==> c.usageCounts[lab] == Count(data, OfTypeWith("usage", LabOf(), lab)))
      && Total(c.usageLabs, c.usageCounts) == Count(data, OfType("usage"))
      && c.stockNormal == Count(data, StockWith("completed")) && c.stockLow == Count(data, StockWith("low-stock"))
      && (forall date :: date in c.maintenanceDates <==> date in c.maintenanceCounts)
      && (forall date :: date in c.maintenanceCounts ==>
            c.maintenanceCounts[date] == Count(data, OfTypeWith("maintenance", DateOf(), date)))
      && Total(c.maintenanceDates, c.maintenanceCounts) == Count(data, OfType("maintenance"))
  {
    if |data| == 0 {
      return None;
    }
    var usageLabs, usageCounts := Tally(Keys(Keep(data, OfType("usage")), LabOf()));
    forall lab | lab in usageCounts
      ensures usageCounts[lab] == Count(data, OfTypeWith("usage", LabOf(), lab))
    {
      TallyCountsRecords(data, "usage", LabOf(), lab);
    }
    var dates, dateCounts := Tally(Keys(Keep(data, OfType("maintenance")), DateOf()));
    forall date | date in dateCounts
      ensures dateCounts[date] == Count(data, OfTypeWith("maintenance", DateOf(), date))
    {
      TallyCountsRecords(data, "maintenance", DateOf(), date);
    }
    var normal := |Keep(data, StockWith("completed"))|;
    var low := |Keep(data, StockWith("low-stock"))|;
    charts := Some(Charts(usageLabs, usageCounts, normal, low, dates, dateCounts));
  }

  /** A laboratory with no usage record has no bar. */
  lemma NoUsageNoBar(data: seq<Report>, lab: string)
    requires forall i :: 0 <= i < |data| ==> data[i].kind != "usage" || data[i].lab != lab
    ensures Count(data, OfTypeWith("usage", LabOf(), lab)) == 0
  {
    KeepNone(data, OfTypeWith("usage", LabOf(), lab));
  }

  function StockOther(): Report -> bool {
    (r: Report) => r.kind == "stock" && r.status != "completed" && r.status != "low-stock"
  }

  function StockCounted(): Report -> bool {
    (r: Report) => r.kind == "stock" && (r.status == "completed" || r.status == "low-stock")
  }

  /**
   * The stock chart counts only `completed` and `low-stock` records: with
   * the stock records of any other status they make up all stock records.
   */
  lemma StockPartition(data: seq<Report>)
    ensures Count(data, StockWith("completed")) + Count(data, StockWith("low-stock")) + Count(data, StockOther())
            == Count(data, OfType("stock"))
  {
    CountDisjointUnion(data, StockWith("completed"), StockWith("low-stock"), StockCounted());
    CountDisjointUnion(data, StockCounted(), StockOther(), OfType("stock"));
  }

  // ----- the exports -----

  /** A spreadsheet row. */
  datatype SheetRow = SheetRow(tipo: string, recurso: string, laboratorio: string, fecha: string,
                               usuario: string, estado: string)

  function SheetRowOf(r: Report): SheetRow {
    SheetRow(TranslateType(r.kind), r.resource, r.lab, r.date, r.user, TranslateStatus(r.status))
  }

  function SheetRows(data: seq<Report>): (rows: seq<SheetRow>)
    ensures |rows| == |data| && forall i :: 0 <= i < |rows| ==> rows[i] == SheetRowOf(data[i])
  {
    if |data| == 0 then [] else [SheetRowOf(data[0])] + SheetRows(data[1..])
  }

  /** `exportExcel()`: with no data it only warns (`None`), else one row per record, in order, with the translated type and status. */
  function ExportExcel(data: seq<Report>): (r: Option<seq<SheetRow>>)
    ensures r.None? <==> |data| == 0
    ensures r.Some? ==> |r.value| == |data|
    ensures r.Some? ==> forall i :: 0 <= i < |data| ==>
      r.value[i].tipo == TranslateType(data[i].kind) && r.value[i].estado == TranslateStatus(data[i].status)
      && r.value[i].recurso == data[i].resource && r.value[i].laboratorio == data[i].lab
      && r.value[i].fecha == data[i].date && r.value[i].usuario == data[i].user
  {
    if |data| == 0 then None else Some(SheetRows(data))
  }

  /** Where a PDF line is written: a page (0 is the first) and a height `y`. */
  datatype Position = Position(page: nat, y: int)

  /** The first line is written at `y = 30` of the first page. */
  const FirstY := 30
  /** Each line moves down 8 units. */
  const LineStep := 8
  /** Past this height a new page is started... */
  const BottomY := 270
  /** ...and writing resumes at this height. */
  const TopY := 20

  /** After writing at `p`: move down a line, and start a new page past the bottom. */
  function Advance(p: Position): Position {
    if p.y + LineStep > BottomY then Position(p.page + 1, TopY) else Position(p.page, p.y + LineStep)
  }

  /** Where the `i`-th line is written. */
  function LineAt(i: nat): Position {
    if i == 0 then Position(0, FirstY) else Advance(LineAt(i - 1))
  }

  /** One unfolding of `LineAt`. */
  lemma NextLine(i: nat, p: Position)
    requires p == Advance(LineAt(i))
    ensures LineAt(i + 1) == p
  {
  }

  /** A line of the PDF. */
  datatype PdfLine = PdfLine(at: Position, text: string)

  function PdfText(r: Report): string {
    "• " + TranslateType(r.kind) + " | " + r.resource + " | " + r.lab + " | " + r.date + " | " + r.user
  }

  /**
   * `exportPDF()`: one line per record, each at its place; `pages` counts
   * the title page and every `addPage`, including one added after the
   * last line when it reaches the bottom.
   */
  method ExportPdf(data: seq<Report>) returns (lines: seq<PdfLine>, pages: nat)
    ensures |lines| == |data|
    ensures forall i :: 0 <= i < |data| ==> lines[i] == PdfLine(LineAt(i), PdfText(data[i]))
    ensures pages == LineAt(|data|).page + 1
  {
    lines := [];
    var y := FirstY;
    pages := 1;
    for i := 0 to |data|
      invariant LinesFor(lines, data, i)
      invariant LineAt(i) == Position(pages - 1, y)
      invariant pages >= 1
    {
      LinesSnoc(lines, data, i, Position(pages - 1, y));
      lines := lines + [PdfLine(Position(pages - 1, y), PdfText(data[i]))];
      y := y + LineStep;
      if y > BottomY {
        pages := pages + 1;
        y := TopY;
      }
      NextLine(i, Position(pages - 1, y));
    }
  }

  /** The first `n` lines are the first `n` records, each at its place. */
  predicate LinesFor(lines: seq<PdfLine>, data: seq<Report>, n: nat)
    requires n <= |data|
  {
    |lines| == n && forall k :: 0 <= k < n ==> lines[k] == PdfLine(LineAt(k), PdfText(data[k]))
  }

  lemma LinesSnoc(lines: seq<PdfLine>, data: seq<Report>, i: nat, p: Position)
    requires i < |data| && LinesFor(lines, data, i) && p == LineAt(i)
    ensures LinesFor(lines + [PdfLine(p, PdfText(data[i]))], data, i + 1)
  {
    var next := lines + [PdfLine(p, PdfText(data[i]))];
    forall k | 0 <= k < i + 1
      ensures next[k] == PdfLine(LineAt(k), PdfText(data[k]))
    {
      if k < i {
        assert next[k] == lines[k];
      }
    }
  }

  /** The place of the `i`-th line in closed form: 31 lines on the first page, 32 on each later one. */
  function LinePlace(i: nat): Position {
    if i < 31 then Position(0, FirstY + LineStep * i)
    else Position(1 + (i - 31) / 32, TopY + LineStep * ((i - 31) % 32))
  }

  lemma {:induction false} LineAtPlace(i: nat)
    ensures LineAt(i) == LinePlace(i)
  {
    if i > 0 {
      LineAtPlace(i - 1);
      if i > 31 {
        var j := i - 32;
        if j % 32 == 31 {
          assert (i - 31) / 32 == j / 32 + 1 && (i - 31) % 32 == 0;
        } else {
          assert (i - 31) / 32 == j / 32 && (i - 31) % 32 == j % 32 + 1;
        }
      }
    }
  }

  /** Every line is written between the top and the bottom margin, and a page holds at most 32 lines. */
  lemma LinesWithinMargins(i: nat)
    ensures TopY <= LineAt(i).y <= BottomY
    ensures LineAt(i).page == 0 <==> i < 31
    ensures i >= 32 ==> LineAt(i - 32).page < LineAt(i).page
  {
    LineAtPlace(i);
    if i >= 32 {
      LineAtPlace(i - 32);
      if i - 32 >= 31 {
        assert (i - 31) / 32 == (i - 63) / 32 + 1;
      }
    }
  }

  /** Two different lines are never written at the same place. */
  lemma LinesDoNotOverlap(i: nat, j: nat)
    requires i < j
    ensures LineAt(i) != LineAt(j)
  {
    LineAtPlace(i);
    LineAtPlace(j);
    if i >= 31 && LinePlace(i).page == LinePlace(j).page {
      assert (i - 31) % 32 < (j - 31) % 32;
    }
  }

  /** With exactly 31 records a second, empty page is added after the last line. */
  lemma TrailingEmptyPage()
    ensures LineAt(31).page + 1 == 2
    ensures forall i :: 0 <= i < 31 ==> LineAt(i).page == 0
  {
    LineAtPlace(31);
    forall i | 0 <= i < 31 ensures LineAt(i).page == 0 {
      LineAtPlace(i);
    }
  }
}
