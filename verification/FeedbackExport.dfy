/** The super admin's feedback list as CSV, with cells that would run as
    spreadsheet formulas defused. */
module FeedbackExport {
  import opened Prelude
  import opened Csv
  import opened T = Text

  datatype Cell = Text(text: string) | Number(n: int) | Blank

  predicate IsFormulaStart(c: char) {
    c == '=' || c == '+' || c == '-' || c == '@' || c == '\t' || c == '\r'
  }

  /** What String() makes of a whole number. */
  function Printed(n: int): string {
    if n < 0 then "-" + Digits(-n) else Digits(n)
  }

  /** A cell's text before quoting: an apostrophe before a text that would run as a formula. */
  function CellText(cell: Cell): string {
    match cell
    case Blank => ""
    case Number(n) => Printed(n)
    case Text(text) => if RunsAsFormula(text) then "'" + text else text
  }

  function CsvCell(cell: Cell): string {
    PrintField(CellText(cell))
  }

  /** Exactly the texts that start with a formula character gain an apostrophe;
      afterwards no text does, and every other cell is itself. */
  lemma {:induction false} DefusedExactly(cell: Cell)
    ensures cell.Text? ==>
              CellText(cell) == (if cell.text != "" && IsFormulaStart(cell.text[0]) then "'" else "") + cell.text
    ensures cell.Text? ==> CellText(cell) == "" || !IsFormulaStart(CellText(cell)[0])
    ensures cell.Number? && cell.n >= 0 ==> '0' <= CellText(cell)[0] <= '9'
  {
  }

  predicate RunsAsFormula(text: string) {
    text != "" && IsFormulaStart(text[0])
  }

  /** The apostrophe is the export's one loss: two texts export alike only when
      one is the other, a formula, with an apostrophe typed before it. */
  lemma {:induction false} ExportedAlikeExactly(a: string, b: string)
    ensures CellText(Cell.Text(a)) == CellText(Cell.Text(b)) <==>
            a == b || (a == "'" + b && RunsAsFormula(b)) || (b == "'" + a && RunsAsFormula(a))
  {
    assert ("'" + a)[1..] == a && ("'" + b)[1..] == b;
  }

  datatype Permission = Granted(given: string, version: nat) | Withdrawn(withdrawn: string, given: string, version: nat)
    | NotGiven

  function PermissionCell(p: Permission): Cell {
    match p
    case Granted(given, version) => Text("Granted " + given + " (wording v" + Digits(version) + ")")
    case Withdrawn(withdrawn, given, version) =>
      Text("WITHDRAWN " + withdrawn + " (given " + given + ", wording v" + Digits(version) + ")")
    case NotGiven => Text("Not given")
  }

  function OrBlank(text: Option<string>): Cell {
    if text.Some? then Text(text.value) else Blank
  }

  /** Dates are as their day prints, blank for none. */
  datatype Entry = Entry(
    eventName: string, companyName: string, eventDate: string, submittedAt: string, updatedAt: string, score: int,
    workedBest: Option<string>, toImprove: Option<string>, logoUrl: Option<string>,
    nameLogo: Permission, quote: Permission, caseStudy: Permission, selectedCount: nat, shareableCount: nat)

  const HEADER: seq<string> := [
    "Event", "Account", "Event date", "Submitted", "Last updated", "Score", "What worked best", "What to improve",
    "Logo",
    "Name and logo", "Quote", "Case study contact", "Selected photos", "Shareable photos"]

  function Cells(e: Entry): seq<Cell> {
    [Text(e.eventName), Text(e.companyName), Text(e.eventDate), Text(e.submittedAt), Text(e.updatedAt), Number(e.score),
     OrBlank(e.workedBest), OrBlank(e.toImprove), OrBlank(e.logoUrl), PermissionCell(e.nameLogo),
     PermissionCell(e.quote),
     PermissionCell(e.caseStudy), Number(e.selectedCount), Number(e.shareableCount)]
  }

  function CellTexts(cells: seq<Cell>): seq<string> {
    seq(|cells|, k requires 0 <= k < |cells| => CellText(cells[k]))
  }

  function CsvCells(cells: seq<Cell>): seq<string> {
    seq(|cells|, k requires 0 <= k < |cells| => CsvCell(cells[k]))
  }

  const BYTE_ORDER_MARK: string := "\U{FEFF}"

  /** The header's own cells are texts like any other. */
  function HeaderCells(): seq<Cell> {
    seq(|HEADER|, k requires 0 <= k < |HEADER| => Text(HEADER[k]))
  }

  function CsvRow(cells: seq<Cell>): string {
    Join(CsvCells(cells), ",")
  }

  function CsvRows(rows: seq<seq<Cell>>): seq<string> {
    seq(|rows|, k requires 0 <= k < |rows| => CsvRow(rows[k]))
  }

  function Rows(entries: seq<Entry>): seq<seq<Cell>> {
    [HeaderCells()] + seq(|entries|, k requires 0 <= k < |entries| => Cells(entries[k]))
  }

  function FeedbackCsv(entries: seq<Entry>): string {
    BYTE_ORDER_MARK + (Join(CsvRows(Rows(entries)), "\r\n") + "\r\n")
  }

  function RowTexts(rows: seq<seq<Cell>>): seq<seq<string>> {
    seq(|rows|, k requires 0 <= k < |rows| => CellTexts(rows[k]))
  }

  /** Rows are printed as the records of their cells' texts. */
  lemma {:induction false} RowsArePrinted(rows: seq<seq<Cell>>)
    ensures CsvRows(rows) == PrintRecords(RowTexts(rows))
  {
    forall k | 0 <= k < |rows| ensures CsvRows(rows)[k] == PrintRecords(RowTexts(rows))[k] {
      assert CsvCells(rows[k]) == PrintFields(CellTexts(rows[k]));
    }
  }

  lemma {:induction false} HeaderIsItself()
    ensures CellTexts(HeaderCells()) == HEADER
  {
    forall k | 0 <= k < |HEADER| ensures CellTexts(HeaderCells())[k] == HEADER[k] {
      assert HEADER[k] != "" && !IsFormulaStart(HEADER[k][0]);
    }
  }

  lemma {:induction false} FourteenToARow(entries: seq<Entry>, k: nat)
    requires k < |Rows(entries)|
    ensures |RowTexts(Rows(entries))[k]| == 14
  {
  }

  /** Read back after its byte order mark, the file is the header and exactly
      every entry's cells, fourteen to a row, whatever the organisers typed. */
  lemma {:induction false} FeedbackCsvReadsBack(entries: seq<Entry>)
    ensures FeedbackCsv(entries)[..1] == BYTE_ORDER_MARK
    ensures ParseFile(FeedbackCsv(entries)[1..]) == Some(RowTexts(Rows(entries)))
    ensures RowTexts(Rows(entries))[0] == HEADER
    ensures forall k :: 0 <= k < |entries| ==> RowTexts(Rows(entries))[k + 1] == CellTexts(Cells(entries[k]))
  {
    var records := RowTexts(Rows(entries));
    RowsArePrinted(Rows(entries));
    HeaderIsItself();
    forall k | 0 <= k < |records| ensures |records[k]| > 1 {
      FourteenToARow(entries, k);
    }
    FileBack(records);
    assert FeedbackCsv(entries) == BYTE_ORDER_MARK + PrintFile(records);
  }

  // ── What each column says ──

  /** A text as it is, or after an apostrophe when it would run as a formula. */
  predicate IsDefused(typed: string, text: string) {
    text == if typed != "" && typed[0] in {'=', '+', '-', '@', '\t', '\r'} then "'" + typed else typed
  }

  predicate IsOptional(typed: Option<string>, text: string) {
    match typed
    case Some(s) => IsDefused(s, text)
    case None => text == ""
  }

  predicate IsPermission(p: Permission, text: string) {
    match p
    case Granted(given, version) => text == "Granted " + given + " (wording v" + Digits(version) + ")"
    case Withdrawn(withdrawn, given, version) =>
      text == "WITHDRAWN " + withdrawn + " (given " + given + ", wording v" + Digits(version) + ")"
    case NotGiven => text == "Not given"
  }

  predicate IsNumber(n: int, text: string) {
    if n < 0 then text == "-" + Digits(-n) else text == Digits(n)
  }

  predicate SaysWho(e: Entry, texts: seq<string>)
    requires |texts| == 14
  {
    && IsDefused(e.eventName, texts[0]) && IsDefused(e.companyName, texts[1]) && IsDefused(e.eventDate, texts[2])
    && IsDefused(e.submittedAt, texts[3]) && IsDefused(e.updatedAt, texts[4])
  }

  predicate SaysWhat(e: Entry, texts: seq<string>)
    requires |texts| == 14
  {
    && IsNumber(e.score, texts[5])
    && IsOptional(e.workedBest, texts[6]) && IsOptional(e.toImprove, texts[7]) && IsOptional(e.logoUrl, texts[8])
    && IsNumber(e.selectedCount, texts[12]) && IsNumber(e.shareableCount, texts[13])
  }

  predicate SaysPermissions(e: Entry, texts: seq<string>)
    requires |texts| == 14
  {
    && IsPermission(e.nameLogo, texts[9]) && IsPermission(e.quote, texts[10]) && IsPermission(e.caseStudy, texts[11])
  }

  /** Fourteen texts, each the entry's own value for its column. */
  predicate IsRow(e: Entry, texts: seq<string>) {
    |texts| == 14 && SaysWho(e, texts) && SaysWhat(e, texts) && SaysPermissions(e, texts)
  }

  lemma {:induction false} PermissionTexts(p: Permission)
    ensures IsPermission(p, CellText(PermissionCell(p)))
  {
  }

  lemma {:induction false} TextsOf(cells: seq<Cell>, k: nat)
    requires k < |cells|
    ensures |CellTexts(cells)| == |cells| && CellTexts(cells)[k] == CellText(cells[k])
  {
  }

  lemma {:induction false} WhoIsSaid(e: Entry)
    ensures SaysWho(e, CellTexts(Cells(e)))
  {
  }

  lemma {:induction false} WhatIsSaid(e: Entry)
    ensures SaysWhat(e, CellTexts(Cells(e)))
  {
  }

  lemma {:induction false} PermissionsAreSaid(e: Entry)
    ensures SaysPermissions(e, CellTexts(Cells(e)))
  {
    PermissionTexts(e.nameLogo);
    PermissionTexts(e.quote);
    PermissionTexts(e.caseStudy);
    TextsOf(Cells(e), 9);
    TextsOf(Cells(e), 10);
    TextsOf(Cells(e), 11);
  }

  /** The file read back is these headings and, under them, each entry's own values. */
  lemma {:induction false} EveryColumnIsItsOwn(entries: seq<Entry>, n: nat)
    requires n < |entries|
    ensures var records := ParseFile(FeedbackCsv(entries)[1..]);
            && records.Some? && |records.value| == 1 + |entries| && IsRow(entries[n], records.value[n + 1])
            && records.value[0] ==
               ["Event", "Account", "Event date", "Submitted", "Last updated", "Score", "What worked best",
                "What to improve", "Logo", "Name and logo", "Quote", "Case study contact", "Selected photos",
                "Shareable photos"]
  {
    FeedbackCsvReadsBack(entries);
    WhoIsSaid(entries[n]);
    WhatIsSaid(entries[n]);
    PermissionsAreSaid(entries[n]);
  }
}
