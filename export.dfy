/**
 * The export step (`outputToCSV`): the listing records the search endpoint
 * returns, their projection to the seven spreadsheet columns, and the name
 * and place of the file the rows go to. Encoding the rows as CSV, creating
 * the directories and writing the file are not modelled.
 */
module Export {
  import opened Decimal
  import opened Strings

  datatype Attribute = Attribute(header: string, id: string, items: seq<string>)

  datatype Location = Location(id: string, name: string, queryKey: string)

  datatype Parameter = Parameter(id: string, displayLabel: string, value: string)

  datatype ParameterGroup = ParameterGroup(displayLabel: string, parameters: seq<Parameter>, groupType: string)

  datatype Price = Price(displayLabel: string, suffix: string, value: Int64)

  /** One listing, as decoded from the search endpoint's JSON. */
  datatype Ad = Ad(
    adId: string,
    adStatus: string,
    attributes: seq<Attribute>,
    licensePlate: string,
    listId: string,
    location: seq<Location>,
    parameterGroups: seq<ParameterGroup>,
    price: Price,
    shareUrl: string,
    subject: string)

  /** The whole reply of the search endpoint (the original's `Ad` struct wraps this list). */
  datatype Ads = Ads(data: seq<Ad>)

  /** The seven columns of the export, in their order in every row. */
  datatype Column = Subject | PriceColumn | Mileage | Year | Municipality | Area | Url

  const Columns: seq<Column> := [Subject, PriceColumn, Mileage, Year, Municipality, Area, Url]

  /** The name a column has in the header row. */
  function ColumnName(c: Column): string
  {
    match c
    case Subject => "Subject"
    case PriceColumn => "Price"
    case Mileage => "Mileage"
    case Year => "Year"
    case Municipality => "Municipality"
    case Area => "Area"
    case Url => "URL"
  }

  /** The header row as the original spells it out. */
  const Header: seq<string> := ["Subject", "Price", "Mileage", "Year", "Municipality", "Area", "URL"]

  /** The header row names the columns in order. */
  lemma HeaderNamesColumns()
    ensures |Header| == |Columns|
    ensures forall c :: 0 <= c < |Columns| ==> Header[c] == ColumnName(Columns[c])
  {
  }

  /** What `Area` holds when a listing has a single location. */
  const NoArea: string := "N/A"

  /**
   * The positional accesses the projection makes without checking: the
   * third and fourth parameter of the first parameter group, and the first
   * location. A listing lacking any of them makes the original panic.
   */
  predicate Exportable(ad: Ad)
  {
    |ad.parameterGroups| >= 1 && |ad.parameterGroups[0].parameters| >= 4 && |ad.location| >= 1
  }

  /** The value a listing contributes under column `c`. */
  function Cell(ad: Ad, c: Column): (r: string)
    requires Exportable(ad)
    ensures c == PriceColumn ==> IsDecimal(r) && ParseInt(r) == ad.price.value as int
  {
    match c
    case Subject => ad.subject
    case PriceColumn => IntToString(ad.price.value as int)
    case Mileage => ad.parameterGroups[0].parameters[2].value
    case Year => ad.parameterGroups[0].parameters[3].value
    case Municipality => ad.location[0].name
    case Area => if |ad.location| > 1 then ad.location[1].name else NoArea
    case Url => ad.shareUrl
  }

  /** `row` is the export row of `ad`: one cell per column, in column order. */
  predicate RowOf(ad: Ad, row: seq<string>)
    requires Exportable(ad)
  {
    |row| == |Columns| && forall c :: 0 <= c < |Columns| ==> row[c] == Cell(ad, Columns[c])
  }

  /** The row of `ad`, cell by cell. */
  function Row(ad: Ad): (row: seq<string>)
    requires Exportable(ad)
    ensures RowOf(ad, row)
  {
    [Cell(ad, Subject), Cell(ad, PriceColumn), Cell(ad, Mileage), Cell(ad, Year),
     Cell(ad, Municipality), Cell(ad, Area), Cell(ad, Url)]
  }

  /** The seven values the loop body appends, in that order, form the row of the listing. */
  lemma AppendedRow(ad: Ad, line: seq<string>)
    requires Exportable(ad)
    requires |line| == 7
    requires line[0] == ad.subject && line[1] == IntToString(ad.price.value as int)
    requires line[2] == ad.parameterGroups[0].parameters[2].value
    requires line[3] == ad.parameterGroups[0].parameters[3].value
    requires line[4] == ad.location[0].name
    requires line[5] == if |ad.location| > 1 then ad.location[1].name else NoArea
    requires line[6] == ad.shareUrl
    ensures line == Row(ad)
  {
  }

  /** The loop body of `outputToCSV`: append the seven values of listing `v`, column by column. */
  method BuildLine(v: Ad) returns (line: seq<string>)
    requires Exportable(v)
    ensures line == Row(v)
  {
    line := [];
    line := line + [v.subject];
    line := line + [IntToString(v.price.value as int)];
    line := line + [v.parameterGroups[0].parameters[2].value];
    line := line + [v.parameterGroups[0].parameters[3].value];
    line := line + [v.location[0].name];
    if |v.location| > 1 {
      line := line + [v.location[1].name];
    } else {
      line := line + [NoArea];
    }
    line := line + [v.shareUrl];
    AppendedRow(v, line);
  }

  /**
   * The rows `outputToCSV` hands to the CSV writer: the header, then one row
   * per listing in the order received, each the row of its listing.
   */
  method ExportRows(ads: Ads) returns (rows: seq<seq<string>>)
    requires forall i :: 0 <= i < |ads.data| ==> Exportable(ads.data[i])
    ensures |rows| == |ads.data| + 1 && rows[0] == Header
    ensures forall i :: 1 <= i < |rows| ==> rows[i] == Row(ads.data[i - 1])
  {
    rows := [Header];
    for i := 0 to |ads.data|
      invariant |rows| == i + 1 && rows[0] == Header
      invariant forall k :: 1 <= k < |rows| ==> rows[k] == Row(ads.data[k - 1])
    {
      var line := BuildLine(ads.data[i]);
      rows := rows + [line];
    }
  }

  /** A calendar date, as `time.Now` reports it. */
  datatype Date = Date(year: int, month: nat, day: nat)

  predicate ValidDate(d: Date)
  {
    1 <= d.month <= 12 && 1 <= d.day <= 31
  }

  /** `brand_model_YYYY-MM-DD.csv`, with month and day padded to two digits. */
  function FileName(brand: string, model: string, d: Date): (f: string)
    ensures |f| >= 4 && f[|f| - 4..] == ".csv"
  {
    brand + "_" + model + "_" + IntToString(d.year) + "-" + Pad2(d.month) + "-" + Pad2(d.day) + ".csv"
  }

  /**
   * `f` is `pre`, the year text `y`, a `-`, the two-character month `m`, a
   * `-`, the two-character day `e` and `.csv`, read off by position.
   */
  predicate FieldsAt(f: string, pre: string, y: string, m: string, e: string)
  {
    |f| == |pre| + |y| + 10 && f[..|pre|] == pre && f[|pre|..|f| - 10] == y &&
    f[|f| - 10] == '-' && f[|f| - 9..|f| - 7] == m &&
    f[|f| - 7] == '-' && f[|f| - 6..|f| - 4] == e && f[|f| - 4..] == ".csv"
  }

  /**
   * For a valid date the file name is `brand_model_`, the year, and then the
   * fixed-width `-MM-DD.csv`.
   */
  lemma FileNameLayout(brand: string, model: string, d: Date)
    requires ValidDate(d)
    ensures FieldsAt(FileName(brand, model, d), brand + "_" + model + "_",
                     IntToString(d.year), Pad2(d.month), Pad2(d.day))
  {
    FieldSlices(FileName(brand, model, d), brand + "_" + model + "_",
                IntToString(d.year), Pad2(d.month), Pad2(d.day));
  }

  /** `b` is the slice of `a + b + c` after `a`. */
  lemma InfixOf(a: string, b: string, c: string)
    ensures (a + b + c)[..|a|] == a && (a + b + c)[|a|..|a| + |b|] == b
  {
    var s := a + b + c;
    assert forall k :: 0 <= k < |b| ==> s[|a| + k] == b[k];
  }

  /** Where the year, month and day sit in `pre + y + "-" + m + "-" + e + ".csv"`. */
  lemma FieldSlices(f: string, pre: string, y: string, m: string, e: string)
    requires |m| == 2 && |e| == 2
    requires f == pre + y + "-" + m + "-" + e + ".csv"
    ensures FieldsAt(f, pre, y, m, e)
  {
    var e0 := pre + y + "-" + m + "-";
    var m0 := pre + y + "-";
    assert f == e0 + e + ".csv" && f == m0 + m + ("-" + e + ".csv") && f == pre + y + ("-" + m + "-" + e + ".csv");
    InfixOf(e0, e, ".csv");
    InfixOf(m0, m, "-" + e + ".csv");
    InfixOf(pre, y, "-" + m + "-" + e + ".csv");
  }

  /** Two names built around fixed-width month and day fields agree field by field. */
  lemma DateFieldsAgree(pre: string, y1: string, m1: string, e1: string, y2: string, m2: string, e2: string)
    requires |m1| == 2 && |m2| == 2 && |e1| == 2 && |e2| == 2
    requires pre + y1 + "-" + m1 + "-" + e1 + ".csv" == pre + y2 + "-" + m2 + "-" + e2 + ".csv"
    ensures y1 == y2 && m1 == m2 && e1 == e2
  {
    var f1 := pre + y1 + "-" + m1 + "-" + e1 + ".csv";
    var f2 := pre + y2 + "-" + m2 + "-" + e2 + ".csv";
    assert |y1| == |y2|;
    var p, q := |pre|, |pre| + |y1|;
    assert f1[p..q] == y1 && f2[p..q] == y2;
    assert f1[q + 1..q + 3] == m1 && f2[q + 1..q + 3] == m2;
    assert f1[q + 4..q + 6] == e1 && f2[q + 4..q + 6] == e2;
  }

  /**
   * For one brand and model the file name determines the date: two runs
   * write the same file exactly when they run on the same day.
   */
  lemma FileNameDeterminesDate(brand: string, model: string, d1: Date, d2: Date)
    requires ValidDate(d1) && ValidDate(d2)
    ensures FileName(brand, model, d1) == FileName(brand, model, d2) <==> d1 == d2
  {
    if FileName(brand, model, d1) == FileName(brand, model, d2) {
      DateFieldsAgree(brand + "_" + model + "_",
        IntToString(d1.year), Pad2(d1.month), Pad2(d1.day),
        IntToString(d2.year), Pad2(d2.month), Pad2(d2.day));
      IntToStringInjective(d1.year, d2.year);
      Pad2Injective(d1.month, d2.month);
      Pad2Injective(d1.day, d2.day);
    }
  }

  /**
   * `filepath.Join` without its final lexical clean-up: the non-empty parts,
   * in order, with one `/` between neighbours. A non-empty first part starts
   * the path and is followed by a `/` or by nothing.
   */
  function JoinPath(parts: seq<string>): (p: string)
    ensures |parts| > 0 && parts[0] != "" ==>
      |p| >= |parts[0]| && p[..|parts[0]|] == parts[0] && (|p| == |parts[0]| || p[|parts[0]|] == '/')
    decreases |parts|
  {
    if |parts| == 0 then ""
    else
      var rest := JoinPath(parts[1..]);
      if parts[0] == "" then rest
      else if rest == "" then parts[0]
      else parts[0] + "/" + rest
  }

  /** The joined path is empty exactly when every part is. */
  lemma {:induction false} JoinPathEmpty(parts: seq<string>)
    ensures JoinPath(parts) == "" <==> forall i :: 0 <= i < |parts| ==> parts[i] == ""
    decreases |parts|
  {
    if |parts| > 0 {
      JoinPathEmpty(parts[1..]);
      assert forall i :: 1 <= i < |parts| ==> parts[i] == parts[1..][i - 1];
    }
  }

  /** When no part is empty, the path is the parts joined with `/`. */
  lemma {:induction false} JoinPathOfNonEmpty(parts: seq<string>)
    requires forall i :: 0 <= i < |parts| ==> parts[i] != ""
    ensures JoinPath(parts) == Join(parts, "/")
    decreases |parts|
  {
    if |parts| > 1 {
      JoinPathOfNonEmpty(parts[1..]);
      JoinPathEmpty(parts[1..]);
      assert parts[1..][0] != "";
    }
  }

  /** A non-empty part in front comes before a `/`, unless nothing follows. */
  lemma JoinPathCons(x: string, parts: seq<string>)
    requires x != ""
    ensures JoinPath([x] + parts) == if JoinPath(parts) == "" then x else x + "/" + JoinPath(parts)
  {
    assert ([x] + parts)[1..] == parts;
  }

  /** Adding a part at the end puts it after a `/`, unless one side is empty. */
  lemma {:induction false} JoinPathSnoc(parts: seq<string>, x: string)
    ensures JoinPath(parts + [x]) ==
      if x == "" then JoinPath(parts)
      else if JoinPath(parts) == "" then x
      else JoinPath(parts) + "/" + x
    decreases |parts|
  {
    if |parts| > 0 {
      assert (parts + [x])[1..] == parts[1..] + [x];
      JoinPathSnoc(parts[1..], x);
    } else {
      assert parts + [x] == [x];
    }
  }

  /** The directory the export goes to: `outdir/data/brand/model`. */
  function OutputDir(outdir: string, brand: string, model: string): (dir: string)
    ensures dir != ""
  {
    JoinPathEmpty([outdir, "data", brand, model]);
    assert [outdir, "data", brand, model][1] != "";
    JoinPath([outdir, "data", brand, model])
  }

  /** The file the export writes: it lies directly in the output directory. */
  function OutputPath(outdir: string, brand: string, model: string, d: Date): (path: string)
    ensures path == OutputDir(outdir, brand, model) + "/" + FileName(brand, model, d)
  {
    var f := FileName(brand, model, d);
    JoinPathSnoc([outdir, "data", brand, model], f);
    assert [outdir, "data", brand, model] + [f] == [outdir, "data", brand, model, f];
    JoinPath([outdir, "data", brand, model, f])
  }

  /** One more non-empty name in front of a non-empty path. */
  lemma JoinPathPrepend(x: string, parts: seq<string>, tail: string) returns (whole: seq<string>)
    requires x != "" && JoinPath(parts) == tail && tail != ""
    ensures whole == [x] + parts && JoinPath(whole) == x + "/" + tail
  {
    whole := [x] + parts;
    assert whole[1..] == parts;
  }

  /** Five non-empty names joined with `/`. */
  lemma JoinPathFive(p: string, q: string, r: string, t: string, u: string)
    requires p != "" && q != "" && r != "" && t != "" && u != ""
    ensures JoinPath([p, q, r, t, u]) == p + "/" + q + "/" + r + "/" + t + "/" + u
  {
    assert JoinPath([u]) == u by {
      assert [u][1..] == [];
    }
    var w2 := JoinPathPrepend(t, [u], u);
    var w3 := JoinPathPrepend(r, w2, t + "/" + u);
    var w4 := JoinPathPrepend(q, w3, r + "/" + (t + "/" + u));
    var w5 := JoinPathPrepend(p, w4, q + "/" + (r + "/" + (t + "/" + u)));
    assert w5 == [p, q, r, t, u];
  }

  /** With every name given, the path is `outdir/data/brand/model/brand_model_YYYY-MM-DD.csv`. */
  lemma PathLayout(outdir: string, brand: string, model: string, d: Date)
    requires outdir != "" && brand != "" && model != ""
    ensures OutputPath(outdir, brand, model, d) ==
      outdir + "/" + "data" + "/" + brand + "/" + model + "/" + FileName(brand, model, d)
  {
    JoinPathFive(outdir, "data", brand, model, FileName(brand, model, d));
  }

  /**
   * Re-running on the same day overwrites: for one output directory, brand
   * and model, the path is the same exactly when the date is.
   */
  lemma SameDaySamePath(outdir: string, brand: string, model: string, d1: Date, d2: Date)
    requires ValidDate(d1) && ValidDate(d2)
    ensures OutputPath(outdir, brand, model, d1) == OutputPath(outdir, brand, model, d2) <==> d1 == d2
  {
    FileNameDeterminesDate(brand, model, d1, d2);
    var dir := OutputDir(outdir, brand, model) + "/";
    var f1, f2 := FileName(brand, model, d1), FileName(brand, model, d2);
    if dir + f1 == dir + f2 {
      assert f1 == (dir + f1)[|dir|..];
    }
  }
}
