/** The transaction helpers of `ynam/domain/transactions.py`: description
    normalisation, the duplicate lookup run before each insert, CSV header detection,
    CSV row parsing and Starling API row parsing. */
module Transactions {
  import opened Wrappers
  import opened Dicts
  import opened Strings

  /** An amount in pence. */
  type Money = int

  // ---------------------------------------------------------------------------
  // Descriptions

  /** `normalize_description`: lower-case, every whitespace run collapsed to one
      space, no leading or trailing space; the words are those of the lowered text. */
  function NormalizeDescription(description: string): (r: string)
    ensures SingleSpaced(r) && NoUpper(r)
    ensures Words(r) == Words(Lower(description))
  {
    var ws := Words(Lower(description));
    JoinSingleSpaced(ws);
    WordsNoUpper(Lower(description));
    WordsOfJoin(ws);
    JoinNoUpper(ws);
    Join(ws)
  }

  /** Normalising twice is normalising once. */
  lemma NormalizeIdempotent(description: string)
    ensures NormalizeDescription(NormalizeDescription(description)) == NormalizeDescription(description)
  {
    var n := NormalizeDescription(description);
    LowerOfLowerCase(n);
  }

  /** Descriptions that differ only in case and spacing normalise alike. */
  lemma NormalizeIgnoresCaseAndSpacing(a: string, b: string)
    requires Words(Lower(a)) == Words(Lower(b))
    ensures NormalizeDescription(a) == NormalizeDescription(b)
  {
  }

  // ---------------------------------------------------------------------------
  // Duplicate lookup

  /** An existing row `(id, date, description, amount)`. */
  datatype ExistingTransaction = ExistingTransaction(id: int, date: string, description: string, amount: Money)

  datatype DuplicateCheck = DuplicateCheck(isDuplicate: bool, duplicateId: Option<int>)

  predicate SameTransaction(t: ExistingTransaction, date: string, description: string, amount: Money) {
    t.date == date && t.description == description && t.amount == amount
  }

  /** `is_duplicate_transaction`: the id of the first existing row equal on date,
      description and amount; no id exactly when no row matches. */
  method IsDuplicateTransaction(date: string, description: string, amount: Money,
                                existing: seq<ExistingTransaction>) returns (r: DuplicateCheck)
    ensures r.isDuplicate <==> exists i :: 0 <= i < |existing| && SameTransaction(existing[i], date, description, amount)
    ensures r.duplicateId.Some? <==> r.isDuplicate
    ensures r.isDuplicate ==>
      exists i :: && 0 <= i < |existing|
                  && SameTransaction(existing[i], date, description, amount)
                  && existing[i].id == r.duplicateId.value
                  && forall j :: 0 <= j < i ==> !SameTransaction(existing[j], date, description, amount)
  {
    var k := 0;
    while k < |existing|
      invariant 0 <= k <= |existing|
      invariant forall j :: 0 <= j < k ==> !SameTransaction(existing[j], date, description, amount)
    {
      if SameTransaction(existing[k], date, description, amount) {
        return DuplicateCheck(true, Some(existing[k].id));
      }
      k := k + 1;
    }
    return DuplicateCheck(false, None);
  }

  // ---------------------------------------------------------------------------
  // CSV header detection

  /** The three columns a CSV import needs. */
  datatype Field = DateField | DescriptionField | AmountField

  /** Whether a header, compared case-insensitively, names the field: a date column
      mentions "date"; a description column mentions "merchant" and "name", or
      "description"; an amount column mentions "amount" but not "currency". */
  predicate Detects(f: Field, header: string) {
    var h := Lower(header);
    match f
    case DateField => Contains(h, "date")
    case DescriptionField => (Contains(h, "merchant") && Contains(h, "name")) || Contains(h, "description")
    case AmountField => Contains(h, "amount") && !Contains(h, "currency")
  }

  /** `v` is the first header that names the field, in its original case, or "" when
      none does. */
  predicate FirstDetected(f: Field, headers: seq<string>, v: string) {
    || (v == "" && forall i :: 0 <= i < |headers| ==> !Detects(f, headers[i]))
    || exists i :: 0 <= i < |headers| && headers[i] == v && Detects(f, headers[i]) &&
         forall j :: 0 <= j < i ==> !Detects(f, headers[j])
  }

  datatype ColumnMapping = ColumnMapping(date: string, description: string, amount: string)

  /** A header that names a field is never empty, so an assigned mapping stays put. */
  lemma DetectedNonEmpty(f: Field, header: string)
    ensures Detects(f, header) ==> header != ""
  {
  }

  /** `analyze_csv_columns`: for each field, the first header naming it. */
  method AnalyzeCsvColumns(headers: seq<string>) returns (r: ColumnMapping)
    ensures FirstDetected(DateField, headers, r.date)
    ensures FirstDetected(DescriptionField, headers, r.description)
    ensures FirstDetected(AmountField, headers, r.amount)
  {
    var date, description, amount := "", "", "";
    var i := 0;
    while i < |headers|
      invariant 0 <= i <= |headers|
      invariant FirstDetected(DateField, headers[..i], date)
      invariant FirstDetected(DescriptionField, headers[..i], description)
      invariant FirstDetected(AmountField, headers[..i], amount)
    {
      var header := headers[i];
      DetectedNonEmpty(DateField, header);
      DetectedNonEmpty(DescriptionField, header);
      DetectedNonEmpty(AmountField, header);
      date := Step(DateField, headers, i, date);
      description := Step(DescriptionField, headers, i, description);
      amount := Step(AmountField, headers, i, amount);
      i := i + 1;
    }
    assert headers[..i] == headers;
    r := ColumnMapping(date, description, amount);
  }

  /** One iteration of the header loop for one field: keep a value already found,
      otherwise take this header if it names the field. */
  method Step(f: Field, headers: seq<string>, i: int, current: string) returns (next: string)
    requires 0 <= i < |headers|
    requires FirstDetected(f, headers[..i], current)
    ensures FirstDetected(f, headers[..i + 1], next)
  {
    var prefix := headers[..i + 1];
    assert forall j :: 0 <= j < i ==> prefix[j] == headers[..i][j];
    if current == "" && Detects(f, headers[i]) {
      DetectedNonEmpty(f, headers[i]);
      assert prefix[i] == headers[i];
      next := headers[i];
    } else {
      DetectedNonEmpty(f, headers[i]);
      next := current;
    }
  }

  // ---------------------------------------------------------------------------
  // CSV rows

  datatype CsvMapping = CsvMapping(dateColumn: string, descriptionColumn: string, amountColumn: string)

  datatype ParsedTransaction = ParsedTransaction(date: string, description: string, amount: Money)

  /** `row.get(column, "").strip()`: a missing column reads as empty. */
  function Cell(row: Dict<string>, column: string): (r: string)
    ensures !HasKey(row, column) ==> r == []
  {
    Strip(GetOr(row, column, ""))
  }

  /** `parse_csv_transaction`. `parsePence` stands for `int(float(text) * 100)`: it
      gives None where the source catches a `ValueError`. A row is skipped when its
      date or amount cell is blank or the amount does not parse; otherwise the date
      is cut to `YYYY-MM-DD`, a blank description becomes "Unknown", and the amount
      is recorded as an expense whatever its sign. */
  function ParseCsvTransaction(row: Dict<string>, mapping: CsvMapping, parsePence: string -> Option<int>)
    : (r: Option<ParsedTransaction>)
    ensures r.None? <==>
      || Cell(row, mapping.dateColumn) == []
      || Cell(row, mapping.amountColumn) == []
      || parsePence(Cell(row, mapping.amountColumn)).None?
    ensures r.Some? ==>
      && 0 < |r.value.date| <= 10
      && r.value.date == Prefix(Cell(row, mapping.dateColumn), 10)
      && r.value.description == (if Cell(row, mapping.descriptionColumn) == [] then "Unknown"
                                 else Cell(row, mapping.descriptionColumn))
      && r.value.description != []
      && r.value.amount <= 0
      && (r.value.amount == parsePence(Cell(row, mapping.amountColumn)).value ||
          r.value.amount == -parsePence(Cell(row, mapping.amountColumn)).value)
    ensures !HasKey(row, mapping.dateColumn) || !HasKey(row, mapping.amountColumn) ==> r.None?
  {
    ParseCells(Cell(row, mapping.dateColumn), Cell(row, mapping.descriptionColumn),
               Cell(row, mapping.amountColumn), parsePence)
  }

  /** The same, on the three stripped cells. */
  function ParseCells(rawDate: string, rawDescription: string, rawAmount: string,
                      parsePence: string -> Option<int>): (r: Option<ParsedTransaction>)
    ensures r.None? <==> rawDate == [] || rawAmount == [] || parsePence(rawAmount).None?
    ensures r.Some? ==>
      && 0 < |r.value.date| <= 10
      && r.value.date == Prefix(rawDate, 10)
      && r.value.description == (if rawDescription == [] then "Unknown" else rawDescription)
      && r.value.description != []
      && r.value.amount <= 0
      && (r.value.amount == parsePence(rawAmount).value || r.value.amount == -parsePence(rawAmount).value)
  {
    if rawDate == [] then None
    else
      var description := if rawDescription == [] then "Unknown" else rawDescription;
      if rawAmount == [] then None
      else match parsePence(rawAmount)
        case None => None
        case Some(pence) =>
          var magnitude := if pence < 0 then -pence else pence;
          Some(ParsedTransaction(Prefix(rawDate, 10), description, -magnitude))
  }

  /** The import treats an amount cell and its negation alike: with the other cells
      the same, "50.00" and "-50.00" record the same expense. */
  lemma CsvSignIgnored(date: string, description: string, amount: string, negated: string,
                       parsePence: string -> Option<int>)
    requires amount != [] && negated != []
    requires parsePence(amount).Some? && parsePence(negated) == Some(-parsePence(amount).value)
    ensures ParseCells(date, description, amount, parsePence) == ParseCells(date, description, negated, parsePence)
  {
  }

  // ---------------------------------------------------------------------------
  // Starling API rows

  /** The fields of a Starling feed item the parser reads; `None` is a missing key. */
  datatype ApiTransaction = ApiTransaction(
    transactionTime: string,
    counterPartyName: Option<string>,
    minorUnits: int,
    direction: Option<string>)

  /** `parse_api_transaction`: the date is the first ten characters of the timestamp,
      a missing counterparty reads "Unknown", and outgoing money is negative. */
  function ParseApiTransaction(raw: ApiTransaction): (r: (string, string, Money))
    ensures r.0 == Prefix(raw.transactionTime, 10) && |r.0| <= 10
    ensures raw.counterPartyName.Some? ==> r.1 == raw.counterPartyName.value
    ensures raw.counterPartyName.None? ==> r.1 == "Unknown"
    ensures raw.direction == Some("OUT") ==> r.2 == -raw.minorUnits
    ensures raw.direction != Some("OUT") ==> r.2 == raw.minorUnits
  {
    var amount := if raw.direction == Some("OUT") then -raw.minorUnits else raw.minorUnits;
    (Prefix(raw.transactionTime, 10), raw.counterPartyName.GetOr("Unknown"), amount)
  }

  /** Starling reports unsigned minor units: an outgoing payment is then never
      income and an incoming one never an expense. */
  lemma ApiDirectionSign(raw: ApiTransaction)
    requires raw.minorUnits >= 0
    ensures ParseApiTransaction(raw).2 < 0 <==> raw.direction == Some("OUT") && raw.minorUnits > 0
    ensures ParseApiTransaction(raw).2 > 0 <==> raw.direction != Some("OUT") && raw.minorUnits > 0
  {
  }
}
