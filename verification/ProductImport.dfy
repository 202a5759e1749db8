/**
 Product imports (apps/api/src/imports): parsing a file into rows, the preview that sorts them into valid and
 rejected, and the commit that creates the valid ones.
 */
module ProductImport {
  import opened Wrappers
  import Csv
  import JsText

  datatype Product = Product(sku: string, details: string)

  /** The product schema and the conversion to upper case. */
  datatype Rules = Rules(
    schema: map<string, string> -> Result<Product, seq<string>>,
    upper: string -> string)
  {
    /** The schema turns the SKU it accepts into upper case, and explains every rejection. */
    ghost predicate Valid() {
      && (forall raw :: schema(raw).Success? ==> upper(schema(raw).value.sku) == schema(raw).value.sku)
      && (forall raw :: schema(raw).Failure? ==> schema(raw).error != [])
    }
  }

  datatype Problem = TooManyColumns | Schema(message: string) | SkuExists | SkuRepeated

  datatype ImportError = ImportError(row: nat, problem: Problem)

  /** A row the schema accepted, with its number. */
  datatype Row = Row(number: nat, product: Product)

  datatype ParsedImport = ParsedImport(errors: seq<ImportError>, rows: seq<Row>, rowsTotal: nat)

  datatype Refusal = FileTooLarge | NotCsv(message: string) | NoHeaderRow | MissingColumns | TooManyRows

  const MAX_ROWS := 5000

  const REQUIRED_HEADERS := ["sku", "name", "sale_price", "reorder_point"]

  // ----- Parsing -----

  /** Space or a hyphen between the words of a heading. */
  predicate IsGap(c: char) {
    JsText.IsSpace(c) || c == '-'
  }

  /** Each run of gaps becomes one underscore. */
  function Underscored(text: string): string {
    if text == "" then ""
    else if !IsGap(text[0]) then [text[0]] + Underscored(text[1..])
    else if |text| > 1 && IsGap(text[1]) then Underscored(text[1..])
    else "_" + Underscored(text[1..])
  }

  function NormalizeHeader(value: string): string {
    var normalized := Underscored(JsText.Lower(JsText.Trim(value)));
    if normalized == "saleprice" then "sale_price"
    else if normalized == "reorderpoint" then "reorder_point"
    else normalized
  }

  predicate IsCanonical(c: char) {
    !IsGap(c) && JsText.LowerChar(c) == c
  }

  lemma {:induction false} UnderscoredIsCanonical(text: string)
    requires forall c | c in text :: JsText.LowerChar(c) == c
    ensures forall c | c in Underscored(text) :: IsCanonical(c)
  {
    hide JsText.IsSpace;
    if text != "" {
      assert text[0] in text && forall c | c in text[1..] :: c in text;
      UnderscoredIsCanonical(text[1..]);
      UnderscoreIsCanonical();
    }
  }

  lemma UnderscoreIsCanonical()
    ensures IsCanonical('_')
  {
  }

  lemma {:induction false} UnderscoredStays(text: string)
    requires forall c | c in text :: IsCanonical(c)
    ensures Underscored(text) == text
  {
    hide JsText.IsSpace;
    if text != "" {
      assert text[0] in text && forall c | c in text[1..] :: c in text;
      UnderscoredStays(text[1..]);
    }
  }

  /** A canonical name, other than the two spelt together, is its own heading. */
  lemma CanonicalHeader(name: string)
    requires (forall c | c in name :: IsCanonical(c)) && name != "saleprice" && name != "reorderpoint"
    ensures NormalizeHeader(name) == name
  {
    hide JsText.IsSpace, JsText.LowerChar;
    if name != "" {
      assert name[0] in name && name[|name| - 1] in name;
    }
    assert JsText.Trim(name) == name;
    forall i | 0 <= i < |name| ensures JsText.Lower(name)[i] == name[i] {
      assert name[i] in name;
    }
    assert JsText.Lower(name) == name;
    UnderscoredStays(name);
  }

  lemma HeaderIsCanonical(value: string)
    ensures var header := NormalizeHeader(value);
            (forall c | c in header :: IsCanonical(c)) && header != "saleprice" && header != "reorderpoint"
  {
    var lower := JsText.Lower(JsText.Trim(value));
    forall c | c in lower ensures JsText.LowerChar(c) == c {
      LowerOnce(JsText.Trim(value), c);
    }
    UnderscoredIsCanonical(lower);
  }

  lemma LowerOnce(text: string, c: char)
    requires c in JsText.Lower(text)
    ensures JsText.LowerChar(c) == c
  {
  }

  /** Normalising a second time changes nothing; so a file with the canonical names is read by those names. */
  lemma HeaderIsNormal(value: string)
    ensures NormalizeHeader(NormalizeHeader(value)) == NormalizeHeader(value)
    ensures value in REQUIRED_HEADERS ==> NormalizeHeader(value) == value
  {
    hide NormalizeHeader;
    HeaderIsCanonical(value);
    CanonicalHeader(NormalizeHeader(value));
    if value in REQUIRED_HEADERS {
      CanonicalHeader(value);
    }
  }

  /** Words with something between each two of them. */
  function Spelled(words: seq<string>, gaps: seq<string>): string
    requires |words| == |gaps| + 1
  {
    if gaps == [] then words[0] else words[0] + gaps[0] + Spelled(words[1..], gaps[1..])
  }

  /** The words in lower case, joined by underscores. */
  function Joined(words: seq<string>): string
    requires words != []
  {
    if |words| == 1 then JsText.Lower(words[0]) else JsText.Lower(words[0]) + "_" + Joined(words[1..])
  }

  predicate IsWord(text: string) {
    forall i | 0 <= i < |text| :: !IsGap(text[i])
  }

  predicate IsGaps(text: string) {
    text != "" && forall i | 0 <= i < |text| :: IsGap(text[i])
  }

  /** Words and what separates them; only the first and the last word may be empty. */
  predicate IsSpelling(words: seq<string>, gaps: seq<string>) {
    && |words| == |gaps| + 1 && (forall w | w in words :: IsWord(w)) && (forall g | g in gaps :: IsGaps(g))
    && forall i | 0 < i < |gaps| :: words[i] != ""
  }

  lemma LowerKeepsGaps(c: char)
    ensures IsGap(JsText.LowerChar(c)) == IsGap(c)
  {
  }

  lemma LowerWord(text: string)
    ensures IsWord(text) ==> IsWord(JsText.Lower(text))
    ensures IsGaps(text) ==> IsGaps(JsText.Lower(text))
  {
    hide IsGap, JsText.LowerChar;
    forall i | 0 <= i < |text| ensures IsGap(JsText.Lower(text)[i]) == IsGap(text[i]) {
      LowerKeepsGaps(text[i]);
    }
  }

  lemma {:induction false} UnderscoredGap(gap: string, rest: string)
    requires IsGaps(gap) && (rest != "" ==> !IsGap(rest[0]))
    ensures Underscored(gap + rest) == "_" + Underscored(rest)
  {
    hide IsGap;
    assert (gap + rest)[1..] == gap[1..] + rest && (gap + rest)[0] == gap[0];
    if |gap| == 1 {
      assert gap[1..] + rest == rest;
    } else {
      assert (gap + rest)[1] == gap[1];
      UnderscoredGap(gap[1..], rest);
    }
  }

  lemma {:induction false} UnderscoredWord(word: string, rest: string)
    requires IsWord(word)
    ensures Underscored(word + rest) == word + Underscored(rest)
  {
    hide IsGap;
    if word == "" {
      assert word + rest == rest && word + Underscored(rest) == Underscored(rest);
    } else {
      assert (word + rest)[1..] == word[1..] + rest && (word + rest)[0] == word[0];
      UnderscoredWord(word[1..], rest);
      assert [word[0]] + (word[1..] + Underscored(rest)) == word + Underscored(rest);
    }
  }

  lemma {:induction false} UnderscoredSpelling(words: seq<string>, gaps: seq<string>)
    requires IsSpelling(words, gaps)
    ensures Underscored(JsText.Lower(Spelled(words, gaps))) == Joined(words)
  {
    hide Underscored, IsWord, IsGaps, JsText.Lower;
    var first := JsText.Lower(words[0]);
    LowerWord(words[0]);
    if gaps == [] {
      UnderscoredWord(first, "");
      assert first + "" == first && first + Underscored("") == first by {
        UnderscoredNothing();
      }
    } else {
      var gap, rest := JsText.Lower(gaps[0]), JsText.Lower(Spelled(words[1..], gaps[1..]));
      UnderscoredSpelling(words[1..], gaps[1..]);
      JsText.LowerAcross(words[0] + gaps[0], Spelled(words[1..], gaps[1..]));
      JsText.LowerAcross(words[0], gaps[0]);
      LowerWord(gaps[0]);
      SpelledStarts(words[1..], gaps[1..]);
      UnderscoredWord(first, gap + rest);
      UnderscoredGap(gap, rest);
      assert first + (gap + rest) == first + gap + rest;
      assert first + ("_" + Joined(words[1..])) == first + "_" + Joined(words[1..]);
    }
  }

  lemma UnderscoredNothing()
    ensures Underscored("") == ""
  {
  }

  /** A spelling that has a gap after its first word only if that is not empty starts with no gap. */
  lemma SpelledStarts(words: seq<string>, gaps: seq<string>)
    requires |words| == |gaps| + 1 && IsWord(words[0]) && (gaps != [] ==> words[0] != "")
    ensures var lower := JsText.Lower(Spelled(words, gaps)); lower != "" ==> !IsGap(lower[0])
  {
    hide IsGap, JsText.LowerChar;
    var text := Spelled(words, gaps);
    if text != "" {
      assert text[0] == words[0][0];
      LowerKeepsGaps(text[0]);
    }
  }

  /**
   However a heading is written, with space around it, with spaces or hyphens between its words or hyphens at its
   ends and in either case, it is read as its words in lower case joined by underscores; two names may also be
   written as one word.
   */
  lemma HeaderLaw(lead: string, words: seq<string>, gaps: seq<string>, trail: string)
    requires IsSpelling(words, gaps)
    requires var text := Spelled(words, gaps); text != "" && !JsText.IsSpace(text[0]) && !JsText.IsSpace(text[|text| - 1])
    requires (forall i | 0 <= i < |lead| :: JsText.IsSpace(lead[i])) && forall i | 0 <= i < |trail| :: JsText.IsSpace(trail[i])
    ensures NormalizeHeader(lead + Spelled(words, gaps) + trail)
            == match Joined(words)
               case "saleprice" => "sale_price"
               case "reorderpoint" => "reorder_point"
               case name => name
  {
    hide Spelled, Joined, Underscored, JsText.Lower, JsText.Trim, IsWord, IsGaps;
    JsText.TrimAround(lead, Spelled(words, gaps), trail);
    UnderscoredSpelling(words, gaps);
  }

  function Headers(record: Csv.Row): seq<string> {
    seq(|record|, i requires 0 <= i < |record| => NormalizeHeader(record[i]))
  }

  predicate Blank(record: Csv.Row) {
    forall i | 0 <= i < |record| :: JsText.Trim(record[i]) == ""
  }

  function NonBlank(records: Csv.Grid): Csv.Grid {
    if records == [] then []
    else
      var last := records[|records| - 1];
      NonBlank(records[..|records| - 1]) + (if Blank(last) then [] else [last])
  }

  /** The columns by name; of two columns with one name the later counts. */
  function Columns(headers: seq<string>, record: Csv.Row): map<string, string> {
    if headers == [] then map[]
    else
      var n := |headers| - 1;
      Columns(headers[..n], record)[headers[n] := if n < |record| then JsText.Trim(record[n]) else ""]
  }

  lemma {:induction false} ColumnKeys(headers: seq<string>, record: Csv.Row)
    ensures Columns(headers, record).Keys == set h | h in headers
  {
    hide JsText.Trim;
    if headers != [] {
      ColumnKeys(headers[..|headers| - 1], record);
      assert headers == headers[..|headers| - 1] + [headers[|headers| - 1]];
    }
  }

  /** Each heading reads the cell of its own column, trimmed; of two columns with one name the later; and nothing else. */
  lemma {:induction false} ColumnsLaw(headers: seq<string>, record: Csv.Row, k: nat)
    requires k < |headers| && forall j | k < j < |headers| :: headers[j] != headers[k]
    ensures Columns(headers, record).Keys == set h | h in headers
    ensures headers[k] in Columns(headers, record)
    ensures Columns(headers, record)[headers[k]] == if k < |record| then JsText.Trim(record[k]) else ""
  {
    hide JsText.Trim;
    ColumnKeys(headers, record);
    if k < |headers| - 1 {
      ColumnsLaw(headers[..|headers| - 1], record, k);
    }
  }

  /** Only records without a visible character are left out, and the others keep their order. */
  lemma {:induction false} NonBlankLaw(a: Csv.Grid, b: Csv.Grid)
    ensures NonBlank(a + b) == NonBlank(a) + NonBlank(b)
    ensures |a| == 1 ==> NonBlank(a) == if exists i :: 0 <= i < |a[0]| && JsText.Trim(a[0][i]) != "" then a else []
  {
    hide Blank, JsText.Trim;
    if |a| == 1 {
      BlankIs(a[0]);
      assert a[..0] == [] && a == [a[0]];
    }
    if b == [] {
      assert a + b == a;
    } else {
      assert (a + b)[..|a + b| - 1] == a + b[..|b| - 1];
      NonBlankLaw(a, b[..|b| - 1]);
    }
  }

  lemma BlankIs(record: Csv.Row)
    ensures Blank(record) <==> !exists i :: 0 <= i < |record| && JsText.Trim(record[i]) != ""
  {
  }

  /** What becomes of one record: a product, or the problems found. */
  function Read(rules: Rules, headers: seq<string>, record: Csv.Row): Result<Product, seq<Problem>> {
    if |record| > |headers| then Failure([TooManyColumns])
    else
      match rules.schema(Columns(headers, record))
      case Success(product) => Success(product)
      case Failure(messages) => Failure(seq(|messages|, i requires 0 <= i < |messages| => Schema(messages[i])))
  }

  type Reads = seq<Result<Product, seq<Problem>>>

  function ReadAll(rules: Rules, headers: seq<string>, records: Csv.Grid): (found: Reads)
    ensures |found| == |records|
  {
    seq(|records|, i requires 0 <= i < |records| => Read(rules, headers, records[i]))
  }

  function ErrorsAt(row: nat, problems: seq<Problem>): seq<ImportError> {
    seq(|problems|, i requires 0 <= i < |problems| => ImportError(row, problems[i]))
  }

  function RowsOf(found: Reads): seq<Row> {
    if found == [] then []
    else
      var n := |found| - 1;
      RowsOf(found[..n]) + (if found[n].Success? then [Row(n + 2, found[n].value)] else [])
  }

  function ErrorsOf(found: Reads): seq<ImportError> {
    if found == [] then []
    else
      var n := |found| - 1;
      ErrorsOf(found[..n]) + (if found[n].Success? then [] else ErrorsAt(n + 2, found[n].error))
  }

  /** The reads of a file's records, blank ones left out, or why the file is refused. */
  function FileReads(rules: Rules, content: string, tooLarge: bool): Result<Reads, Refusal> {
    if tooLarge then Failure(FileTooLarge)
    else
      match Csv.Parsed(content)
      case Failure(message) => Failure(NotCsv(message))
      case Success(records) =>
        if |records| == 0 then Failure(NoHeaderRow)
        else if exists i | 0 <= i < |REQUIRED_HEADERS| :: REQUIRED_HEADERS[i] !in Headers(records[0])
        then Failure(MissingColumns)
        else if |NonBlank(records[1..])| > MAX_ROWS then Failure(TooManyRows)
        else Success(ReadAll(rules, Headers(records[0]), NonBlank(records[1..])))
  }

  /**
   Why a file is refused, the first reason counting: its size, unfinished quotes, no rows, a required column that no
   heading names, more than 5,000 rows that are not blank. Otherwise each of those is read: with more cells than the
   file has headings it is a problem, and else it is what the schema makes of its columns.
   */
  lemma FileLaw(rules: Rules, content: string, tooLarge: bool)
    ensures FileReads(rules, content, tooLarge) == Failure(FileTooLarge) <==> tooLarge
    ensures !tooLarge && Csv.Parsed(content).Failure? ==>
              FileReads(rules, content, tooLarge) == Failure(NotCsv(Csv.Parsed(content).error))
    ensures !tooLarge && Csv.Parsed(content).Success? ==>
              var records, r := Csv.Parsed(content).value, FileReads(rules, content, tooLarge);
              if records == [] then r == Failure(NoHeaderRow)
              else if exists name | name in {"sku", "name", "sale_price", "reorder_point"} :: Unnamed(records[0], name)
              then r == Failure(MissingColumns)
              else if |NonBlank(records[1..])| > 5000 then r == Failure(TooManyRows)
              else
                && r.Success? && |r.value| == |NonBlank(records[1..])|
                && forall i | 0 <= i < |r.value| :: ReadRight(rules, records[0], NonBlank(records[1..])[i], r.value[i])
  {
    hide Csv.Parsed, Columns, NonBlank, NormalizeHeader, Unnamed;
    if !tooLarge && Csv.Parsed(content).Success? && Csv.Parsed(content).value != [] {
      RequiredNamed(Csv.Parsed(content).value[0]);
    }
  }

  lemma RequiredNamed(headings: Csv.Row)
    ensures (exists i | 0 <= i < |REQUIRED_HEADERS| :: REQUIRED_HEADERS[i] !in Headers(headings))
            <==> exists name | name in {"sku", "name", "sale_price", "reorder_point"} :: Unnamed(headings, name)
  {
    hide NormalizeHeader, Headers, Unnamed;
    forall name ensures name in Headers(headings) <==> !Unnamed(headings, name) {
      NamedIs(headings, name);
    }
    assert REQUIRED_HEADERS[0] == "sku" && REQUIRED_HEADERS[1] == "name"
        && REQUIRED_HEADERS[2] == "sale_price" && REQUIRED_HEADERS[3] == "reorder_point";
  }

  /** A record with more cells than there are headings is a problem; another is what the schema makes of its columns. */
  ghost predicate ReadRight(rules: Rules, headings: Csv.Row, record: Csv.Row, read: Result<Product, seq<Problem>>) {
    if |record| > |headings| then read == Failure([TooManyColumns])
    else
      match rules.schema(Columns(Headers(headings), record))
      case Success(product) => read == Success(product)
      case Failure(messages) =>
        && read.Failure? && |read.error| == |messages|
        && forall j | 0 <= j < |messages| :: read.error[j] == Schema(messages[j])
  }

  /** No heading is read as this name. */
  ghost predicate Unnamed(headings: Csv.Row, name: string) {
    forall i | 0 <= i < |headings| :: NormalizeHeader(headings[i]) != name
  }

  lemma NamedIs(headings: Csv.Row, name: string)
    ensures name in Headers(headings) <==> !Unnamed(headings, name)
  {
    hide NormalizeHeader;
    if !Unnamed(headings, name) {
      var i :| 0 <= i < |headings| && NormalizeHeader(headings[i]) == name;
      assert Headers(headings)[i] == name;
    }
  }

  /** One more record read. */
  lemma ReadNext(found: Reads, i: nat)
    requires i < |found|
    ensures ErrorsOf(found[..i + 1])
            == if found[i].Success? then ErrorsOf(found[..i]) else ErrorsOf(found[..i]) + ErrorsAt(i + 2, found[i].error)
    ensures RowsOf(found[..i + 1]) == if found[i].Success? then RowsOf(found[..i]) + [Row(i + 2, found[i].value)] else RowsOf(found[..i])
  {
    assert found[..i + 1][..i] == found[..i];
  }

  method ParseProductCsv(rules: Rules, content: string, tooLarge: bool) returns (r: Result<ParsedImport, Refusal>)
    ensures match FileReads(rules, content, tooLarge)
            case Failure(refusal) => r == Failure(refusal)
            case Success(found) => r == Success(ParsedImport(ErrorsOf(found), RowsOf(found), |found|))
  {
    hide Csv.Parsed, NormalizeHeader, NonBlank, Columns;
    if tooLarge {
      return Failure(FileTooLarge);
    }
    var parsed := Csv.ParseCsv(content);
    if parsed.Failure? {
      return Failure(NotCsv(parsed.error));
    }
    var records := parsed.value;
    if |records| == 0 {
      return Failure(NoHeaderRow);
    }
    var headers := Headers(records[0]);
    if exists i | 0 <= i < |REQUIRED_HEADERS| :: REQUIRED_HEADERS[i] !in headers {
      return Failure(MissingColumns);
    }
    var dataRecords := NonBlank(records[1..]);
    if |dataRecords| > MAX_ROWS {
      return Failure(TooManyRows);
    }
    var errors: seq<ImportError>, rows: seq<Row> := [], [];
    ghost var found := ReadAll(rules, headers, dataRecords);
    assert found[..0] == [] && ErrorsOf([]) == [] && RowsOf([]) == [];
    for index := 0 to |dataRecords|
      invariant errors == ErrorsOf(found[..index]) && rows == RowsOf(found[..index])
    {
      hide ErrorsOf, RowsOf;
      ReadNext(found, index);
      var record := dataRecords[index];
      var rowNumber := index + 2;
      if |record| > |headers| {
        assert ErrorsAt(rowNumber, [TooManyColumns]) == [ImportError(rowNumber, TooManyColumns)];
        errors := errors + [ImportError(rowNumber, TooManyColumns)];
        continue;
      }
      var read := Read(rules, headers, record);
      if read.Failure? {
        errors := errors + ErrorsAt(rowNumber, read.error);
        continue;
      }
      rows := rows + [Row(rowNumber, read.value)];
    }
    assert found[..|dataRecords|] == found;
    return Success(ParsedImport(errors, rows, |dataRecords|));
  }

  // ----- Preview -----

  datatype Fate = Valid | Rejected | AlreadyExisting | Repeated

  /** The schema accepted a record with this SKU. */
  ghost predicate Occurs(found: Reads, sku: string) {
    exists j | 0 <= j < |found| :: found[j].Success? && found[j].value.sku == sku
  }

  /** What becomes of the i-th record; of several with one SKU the first wins. */
  ghost function FateOf(existing: set<string>, found: Reads, i: nat): Fate
    requires i < |found|
  {
    if found[i].Failure? then Rejected
    else if found[i].value.sku in existing then AlreadyExisting
    else if Occurs(found[..i], found[i].value.sku) then Repeated
    else Valid
  }

  /** The products of the records whose fate is to be valid, in order. */
  ghost function ValidProducts(existing: set<string>, found: Reads): seq<Product> {
    if found == [] then []
    else
      var n := |found| - 1;
      ValidProducts(existing, found[..n]) + (if FateOf(existing, found, n) == Valid then [found[n].value] else [])
  }

  ghost function Count(existing: set<string>, found: Reads, fate: Fate): nat {
    if found == [] then 0
    else Count(existing, found[..|found| - 1], fate) + if FateOf(existing, found, |found| - 1) == fate then 1 else 0
  }

  datatype Status = PREVIEW | COMMITTED

  datatype ImportRun = ImportRun(validRows: seq<Product>, errors: seq<ImportError>, rowsTotal: nat, rowsValid: nat,
                                 rowsInvalid: int, status: Status)

  ghost function Skus(products: seq<Product>): set<string> {
    set i | 0 <= i < |products| :: products[i].sku
  }

  lemma SkusGrow(products: seq<Product>, more: Product)
    ensures Skus(products + [more]) == Skus(products) + {more.sku}
  {
    var all := products + [more];
    assert all[|products|] == more;
    forall i | 0 <= i < |products| ensures products[i].sku in Skus(all) {
      assert all[i] == products[i];
    }
  }

  /** The SKUs of the valid products so far are those of the readable records that did not exist. */
  lemma {:induction false} SkusSeen(existing: set<string>, found: Reads, sku: string)
    ensures sku in Skus(ValidProducts(existing, found)) <==> sku !in existing && Occurs(found, sku)
  {
    if found != [] {
      var n := |found| - 1;
      var before := ValidProducts(existing, found[..n]);
      SkusSeen(existing, found[..n], sku);
      OccursNext(found, sku);
      if FateOf(existing, found, n) == Valid {
        SkusGrow(before, found[n].value);
      } else {
        assert before + [] == before;
      }
    }
  }

  lemma OccursNext(found: Reads, sku: string)
    requires found != []
    ensures var n := |found| - 1;
            Occurs(found, sku) <==> Occurs(found[..n], sku) || (found[n].Success? && found[n].value.sku == sku)
  {
    var n := |found| - 1;
    if Occurs(found[..n], sku) {
      var j :| 0 <= j < n && found[..n][j].Success? && found[..n][j].value.sku == sku;
      assert found[j].Success? && found[j].value.sku == sku;
    }
    if Occurs(found, sku) && !(found[n].Success? && found[n].value.sku == sku) {
      var j :| 0 <= j < |found| && found[j].Success? && found[j].value.sku == sku;
      assert found[..n][j] == found[j];
    }
  }

  ghost predicate DistinctSkus(products: seq<Product>) {
    forall i, j | 0 <= i < j < |products| :: products[i].sku != products[j].sku
  }

  /** The preview's valid products have distinct SKUs, none of them in the catalogue. */
  lemma {:induction false} ValidProductsAreNew(existing: set<string>, found: Reads)
    ensures DistinctSkus(ValidProducts(existing, found))
    ensures forall i | 0 <= i < |ValidProducts(existing, found)| :: ValidProducts(existing, found)[i].sku !in existing
  {
    if found != [] {
      var n := |found| - 1;
      var before := ValidProducts(existing, found[..n]);
      ValidProductsAreNew(existing, found[..n]);
      if FateOf(existing, found, n) == Valid {
        var sku := found[n].value.sku;
        SkusSeen(existing, found[..n], sku);
        assert forall i | 0 <= i < |before| :: before[i].sku in Skus(before);
      }
    }
  }

  /** Every record has exactly one fate, and the preview's counts are those of the fates. */
  lemma {:induction false} CountsAddUp(existing: set<string>, found: Reads)
    ensures |ValidProducts(existing, found)| == Count(existing, found, Valid)
    ensures |found| == Count(existing, found, Valid) + Count(existing, found, Rejected)
                       + Count(existing, found, AlreadyExisting) + Count(existing, found, Repeated)
  {
    if found != [] {
      CountsAddUp(existing, found[..|found| - 1]);
      FateSame(existing, found);
    }
  }

  lemma FateSame(existing: set<string>, found: Reads)
    requires found != []
    ensures var n := |found| - 1;
            forall i: nat | i < n :: FateOf(existing, found[..n], i) == FateOf(existing, found, i)
  {
    var n := |found| - 1;
    forall i: nat | i < n ensures FateOf(existing, found[..n], i) == FateOf(existing, found, i) {
      assert found[..n][..i] == found[..i];
    }
  }

  // ----- The preview loop -----

  /** The rows the loop keeps: those whose SKU neither exists nor is among those kept before. */
  ghost function KeptRows(existing: set<string>, rows: seq<Row>): seq<Product> {
    if rows == [] then []
    else
      var before, last := KeptRows(existing, rows[..|rows| - 1]), rows[|rows| - 1].product;
      if last.sku in existing || last.sku in Skus(before) then before else before + [last]
  }

  /** The errors the loop adds. */
  ghost function PreviewErrors(existing: set<string>, rows: seq<Row>): seq<ImportError> {
    if rows == [] then []
    else
      var before, last := rows[..|rows| - 1], rows[|rows| - 1];
      PreviewErrors(existing, before)
      + (if last.product.sku in existing then [ImportError(last.number, SkuExists)]
         else if last.product.sku in Skus(KeptRows(existing, before)) then [ImportError(last.number, SkuRepeated)]
         else [])
  }

  /** One turn of the loop. */
  lemma KeptNext(existing: set<string>, rows: seq<Row>, i: nat)
    requires i < |rows|
    ensures var kept, row := KeptRows(existing, rows[..i]), rows[i];
            var known, repeated := row.product.sku in existing, row.product.sku in Skus(kept);
            && KeptRows(existing, rows[..i + 1]) == (if known || repeated then kept else kept + [row.product])
            && PreviewErrors(existing, rows[..i + 1])
               == PreviewErrors(existing, rows[..i])
                  + (if known then [ImportError(row.number, SkuExists)]
                     else if repeated then [ImportError(row.number, SkuRepeated)] else [])
  {
    assert rows[..i + 1][..i] == rows[..i];
  }

  lemma NextRow(rows: seq<Row>, row: Row)
    ensures (rows + [row])[..|rows + [row]| - 1] == rows && (rows + [row])[|rows + [row]| - 1] == row
  {
  }

  /** The loop keeps the products that are valid by their fate. */
  lemma {:induction false} KeptRowsAreValid(existing: set<string>, found: Reads)
    ensures KeptRows(existing, RowsOf(found)) == ValidProducts(existing, found)
  {
    if found != [] {
      var n := |found| - 1;
      var before, valid := RowsOf(found[..n]), ValidProducts(existing, found[..n]);
      KeptRowsAreValid(existing, found[..n]);
      assert before + [] == before && valid + [] == valid;
      if found[n].Success? {
        NextRow(before, Row(n + 2, found[n].value));
        SkusSeen(existing, found[..n], found[n].value.sku);
      }
    }
  }

  ghost predicate Explained(errors: seq<ImportError>, row: nat) {
    exists k | 0 <= k < |errors| :: errors[k].row == row
  }

  lemma ExplainedAppend(errors: seq<ImportError>, more: seq<ImportError>, row: nat)
    ensures Explained(errors + more, row) <==> Explained(errors, row) || Explained(more, row)
  {
    var all := errors + more;
    forall k | 0 <= k < |errors| ensures all[k] == errors[k] {
    }
    forall k | 0 <= k < |more| ensures all[|errors| + k] == more[k] {
    }
    if Explained(errors, row) {
      var k :| 0 <= k < |errors| && errors[k].row == row;
      assert all[k].row == row;
    }
    if Explained(more, row) {
      var k :| 0 <= k < |more| && more[k].row == row;
      assert all[|errors| + k].row == row;
    }
  }

  lemma ExplainedNext(errors: seq<ImportError>, at: nat, problem: Problem, row: nat)
    ensures Explained(errors + [ImportError(at, problem)], row) <==> Explained(errors, row) || at == row
  {
    ExplainedAppend(errors, [ImportError(at, problem)], row);
    assert [ImportError(at, problem)][0].row == at;
  }

  /** The schema gives a reason for every rejection. */
  ghost predicate Reasoned(found: Reads) {
    forall i | 0 <= i < |found| && found[i].Failure? :: found[i].error != []
  }

  lemma ErrorsAtExplain(row: nat, problems: seq<Problem>, number: nat)
    ensures Explained(ErrorsAt(row, problems), number) <==> number == row && problems != []
  {
    if problems != [] {
      assert ErrorsAt(row, problems)[0].row == row;
    }
  }

  lemma ErrorsNext(found: Reads)
    requires found != []
    ensures var n := |found| - 1;
            ErrorsOf(found)
            == if found[n].Success? then ErrorsOf(found[..n]) else ErrorsOf(found[..n]) + ErrorsAt(n + 2, found[n].error)
  {
  }

  lemma {:induction false} RejectedExplained(found: Reads, i: nat)
    requires Reasoned(found)
    ensures Explained(ErrorsOf(found), i + 2) <==> i < |found| && found[i].Failure?
  {
    if found == [] {
      assert ErrorsOf(found) == [];
    } else {
      hide Explained, ErrorsAt, ErrorsOf;
      var n := |found| - 1;
      RejectedExplained(found[..n], i);
      ErrorsNext(found);
      if found[n].Failure? {
        ErrorsAtExplain(n + 2, found[n].error, i + 2);
        ExplainedAppend(ErrorsOf(found[..n]), ErrorsAt(n + 2, found[n].error), i + 2);
      }
    }
  }

  /** The error the loop adds for the last record, if it adds one. */
  lemma UnwantedNext(existing: set<string>, found: Reads)
    requires found != []
    ensures var n := |found| - 1;
            PreviewErrors(existing, RowsOf(found)) == PreviewErrors(existing, RowsOf(found[..n]))
              + (match FateOf(existing, found, n)
                 case AlreadyExisting => [ImportError(n + 2, SkuExists)]
                 case Repeated => [ImportError(n + 2, SkuRepeated)]
                 case _ => [])
  {
    var n := |found| - 1;
    var before := RowsOf(found[..n]);
    if found[n].Success? {
      NextRow(before, Row(n + 2, found[n].value));
      KeptRowsAreValid(existing, found[..n]);
      SkusSeen(existing, found[..n], found[n].value.sku);
    } else {
      assert before + [] == before && PreviewErrors(existing, before) + [] == PreviewErrors(existing, before);
    }
  }

  lemma {:induction false} UnwantedExplained(existing: set<string>, found: Reads, i: nat)
    ensures Explained(PreviewErrors(existing, RowsOf(found)), i + 2)
            <==> i < |found| && (FateOf(existing, found, i) == AlreadyExisting || FateOf(existing, found, i) == Repeated)
  {
    if found != [] {
      var n := |found| - 1;
      var before := PreviewErrors(existing, RowsOf(found[..n]));
      UnwantedExplained(existing, found[..n], i);
      FateSame(existing, found);
      UnwantedNext(existing, found);
      ExplainedNext(before, n + 2, SkuExists, i + 2);
      ExplainedNext(before, n + 2, SkuRepeated, i + 2);
      assert before + [] == before;
    }
  }

  /** A record is not valid exactly when an error names its row. */
  lemma EveryRejectionExplained(existing: set<string>, found: Reads, i: nat)
    requires Reasoned(found) && i < |found|
    ensures Explained(ErrorsOf(found) + PreviewErrors(existing, RowsOf(found)), i + 2) <==> FateOf(existing, found, i) != Valid
  {
    RejectedExplained(found, i);
    UnwantedExplained(existing, found, i);
    ExplainedAppend(ErrorsOf(found), PreviewErrors(existing, RowsOf(found)), i + 2);
  }

  lemma {:induction false} RowsUpperCased(rules: Rules, found: Reads)
    requires forall i | 0 <= i < |found| && found[i].Success? :: rules.upper(found[i].value.sku) == found[i].value.sku
    ensures forall k | 0 <= k < |RowsOf(found)| :: rules.upper(RowsOf(found)[k].product.sku) == RowsOf(found)[k].product.sku
  {
    if found != [] {
      RowsUpperCased(rules, found[..|found| - 1]);
    }
  }

  // ----- The tables -----

  datatype CommitRefusal = ImportNotFound | AlreadyCommitted | SkuTaken

  /** The catalogue once the products are added. */
  function Added(catalogue: map<string, Product>, products: seq<Product>): map<string, Product> {
    if products == [] then catalogue
    else
      var last := products[|products| - 1];
      Added(catalogue, products[..|products| - 1])[last.sku := last]
  }

  lemma {:induction false} AddedKeys(catalogue: map<string, Product>, products: seq<Product>)
    ensures Added(catalogue, products).Keys == catalogue.Keys + Skus(products)
  {
    if products != [] {
      var n := |products| - 1;
      AddedKeys(catalogue, products[..n]);
      assert products == products[..n] + [products[n]];
      SkusGrow(products[..n], products[n]);
    }
  }

  /** Each product is found under its SKU, and everything else is as it was. */
  lemma {:induction false} AddedProducts(catalogue: map<string, Product>, products: seq<Product>)
    requires DistinctSkus(products)
    ensures forall i | 0 <= i < |products| ::
              products[i].sku in Added(catalogue, products) && Added(catalogue, products)[products[i].sku] == products[i]
    ensures forall sku | sku in catalogue && sku !in Skus(products) ::
              sku in Added(catalogue, products) && Added(catalogue, products)[sku] == catalogue[sku]
  {
    if products != [] {
      var n := |products| - 1;
      AddedProducts(catalogue, products[..n]);
      assert products == products[..n] + [products[n]];
      SkusGrow(products[..n], products[n]);
    }
  }

  class ImportTables {
    const rules: Rules
    /** The organisation's products by SKU, which the table keeps unique. */
    var catalogue: map<string, Product>
    var runs: seq<ImportRun>

    constructor (rules: Rules)
      ensures this.rules == rules && catalogue == map[] && runs == []
    {
      this.rules := rules;
      catalogue, runs := map[], [];
    }

    method SortRows(existingSkus: set<string>, rows: seq<Row>, parseErrors: seq<ImportError>)
      returns (validRows: seq<Product>, errors: seq<ImportError>)
      requires forall i | 0 <= i < |rows| :: rules.upper(rows[i].product.sku) == rows[i].product.sku
      ensures validRows == KeptRows(existingSkus, rows)
      ensures errors == parseErrors + PreviewErrors(existingSkus, rows)
    {
      errors, validRows := parseErrors, [];
      var seenSkus: set<string> := {};
      for i := 0 to |rows|
        invariant validRows == KeptRows(existingSkus, rows[..i]) && seenSkus == Skus(validRows)
        invariant errors == parseErrors + PreviewErrors(existingSkus, rows[..i])
      {
        KeptNext(existingSkus, rows, i);
        var row := rows[i];
        var sku := rules.upper(row.product.sku);
        if sku in existingSkus {
          errors := errors + [ImportError(row.number, SkuExists)];
          continue;
        }
        if sku in seenSkus {
          errors := errors + [ImportError(row.number, SkuRepeated)];
          continue;
        }
        SkusGrow(validRows, row.product);
        seenSkus := seenSkus + {sku};
        validRows := validRows + [row.product];
      }
      assert rows[..|rows|] == rows;
    }

    /** `found` is what the schema made of the file's records. */
    method Preview(parsed: ParsedImport, ghost found: Reads) returns (run: nat)
      requires parsed == ParsedImport(ErrorsOf(found), RowsOf(found), |found|)
      requires forall i | 0 <= i < |parsed.rows| :: rules.upper(parsed.rows[i].product.sku) == parsed.rows[i].product.sku
      modifies this`runs
      ensures run == |old(runs)| && |runs| == run + 1 && runs[..run] == old(runs)
      ensures runs[run].status == PREVIEW && runs[run].validRows == ValidProducts(catalogue.Keys, found)
      ensures runs[run].errors == ErrorsOf(found) + PreviewErrors(catalogue.Keys, RowsOf(found))
      ensures runs[run].rowsTotal == |found| && runs[run].rowsValid == Count(catalogue.Keys, found, Valid)
      ensures runs[run].rowsInvalid == Count(catalogue.Keys, found, Rejected)
                + Count(catalogue.Keys, found, AlreadyExisting) + Count(catalogue.Keys, found, Repeated)
    {
      var validRows, errors := SortRows(catalogue.Keys, parsed.rows, parsed.errors);
      KeptRowsAreValid(catalogue.Keys, found);
      CountsAddUp(catalogue.Keys, found);
      run := |runs|;
      runs := runs + [ImportRun(validRows, errors, parsed.rowsTotal, |validRows|, parsed.rowsTotal - |validRows|, PREVIEW)];
    }

    /** The whole preview of a file: every record that is not blank ends with exactly one fate. */
    method PreviewFile(content: string, tooLarge: bool) returns (r: Result<nat, Refusal>)
      requires rules.Valid()
      modifies this`runs
      ensures match FileReads(rules, content, tooLarge)
              case Failure(refusal) => r == Failure(refusal) && runs == old(runs)
              case Success(found) =>
                && r == Success(|old(runs)|) && |runs| == |old(runs)| + 1 && runs[..|old(runs)|] == old(runs)
                && var run := runs[|old(runs)|];
                   && run.status == PREVIEW && run.validRows == ValidProducts(catalogue.Keys, found)
                   && DistinctSkus(run.validRows) && Skus(run.validRows) !! catalogue.Keys
                   && run.rowsTotal == |found| == run.rowsValid + run.rowsInvalid
                   && run.rowsValid == Count(catalogue.Keys, found, Valid)
                   && forall i: nat | i < |found| :: Explained(run.errors, i + 2) <==> FateOf(catalogue.Keys, found, i) != Valid
    {
      var parsed := ParseProductCsv(rules, content, tooLarge);
      if parsed.Failure? {
        return Failure(parsed.error);
      }
      ghost var found := FileReads(rules, content, tooLarge).value;
      ghost var existing := catalogue.Keys;
      assert Reasoned(found) && forall i | 0 <= i < |found| && found[i].Success? :: rules.upper(found[i].value.sku) == found[i].value.sku;
      RowsUpperCased(rules, found);
      var run := Preview(parsed.value, found);
      ValidProductsAreNew(existing, found);
      CountsAddUp(existing, found);
      forall i: nat | i < |found| ensures Explained(runs[run].errors, i + 2) <==> FateOf(existing, found, i) != Valid {
        EveryRejectionExplained(existing, found, i);
      }
      return Success(run);
    }

    /** Creates the rows one by one; a SKU that is taken by then undoes the whole commit. */
    method Commit(id: nat) returns (r: Result<nat, CommitRefusal>)
      requires id < |runs| ==> DistinctSkus(runs[id].validRows)
      modifies this
      ensures r.Success? <==>
                id < |old(runs)| && old(runs)[id].status == PREVIEW && Skus(old(runs)[id].validRows) !! old(catalogue).Keys
      ensures r.Success? ==>
                && r.value == |old(runs)[id].validRows|
                && catalogue == Added(old(catalogue), old(runs)[id].validRows)
                && runs == old(runs)[id := old(runs)[id].(status := COMMITTED)]
      ensures r.Failure? ==> catalogue == old(catalogue) && runs == old(runs)
    {
      if id >= |runs| {
        return Failure(ImportNotFound);
      }
      if runs[id].status != PREVIEW {
        return Failure(AlreadyCommitted);
      }
      var before, rows := catalogue, runs[id].validRows;
      var created := 0;
      for i := 0 to |rows|
        modifies this`catalogue
        invariant created == i && catalogue == Added(before, rows[..i])
        invariant forall j | 0 <= j < i :: rows[j].sku !in before
      {
        assert rows[..i + 1][..i] == rows[..i];
        DistinctPrefix(rows, i);
        AddedKeys(before, rows[..i]);
        if rows[i].sku in catalogue {
          assert rows[i].sku in Skus(rows);
          catalogue := before;
          return Failure(SkuTaken);
        }
        catalogue := catalogue[rows[i].sku := rows[i]];
        created := created + 1;
      }
      assert rows[..|rows|] == rows;
      runs := runs[id := runs[id].(status := COMMITTED)];
      return Success(created);
    }
  }

  lemma DistinctPrefix(products: seq<Product>, i: nat)
    requires DistinctSkus(products) && i < |products|
    ensures DistinctSkus(products[..i]) && products[i].sku !in Skus(products[..i])
  {
  }

  // ----- Commits that overlap -----

  /** `seen` is the status a commit read; nothing locks the run. */
  datatype Process = Process(run: nat, seen: Status, open: bool)

  /** `log` lists the runs whose rows were added, one entry for each time. */
  datatype System = System(catalogue: map<string, Product>, runs: seq<ImportRun>, processes: seq<Process>, log: seq<nat>)

  datatype Step =
    | Begin(run: nat)
    | Finish(process: nat)
    | Abort(process: nat)
    | Create(product: Product)
    | Delete(sku: string)

  function Closed(s: System, i: nat): seq<Process>
    requires i < |s.processes|
  {
    s.processes[i := s.processes[i].(open := false)]
  }

  /** The unique index lets the rows of a run in only if no other product has one of their SKUs. */
  ghost predicate CanPublish(s: System, process: Process) {
    process.open && process.run < |s.runs| && process.seen == PREVIEW && Skus(s.runs[process.run].validRows) !! s.catalogue.Keys
  }

  ghost function Do(s: System, step: Step): System {
    match step
    case Begin(run) => if run < |s.runs| then s.(processes := s.processes + [Process(run, s.runs[run].status, true)]) else s
    case Finish(i) =>
      if i >= |s.processes| then s
      else
        var run := s.processes[i].run;
        if CanPublish(s, s.processes[i])
        then System(Added(s.catalogue, s.runs[run].validRows), s.runs[run := s.runs[run].(status := COMMITTED)], Closed(s, i),
                    s.log + [run])
        else s.(processes := Closed(s, i))
    case Abort(i) => if i < |s.processes| then s.(processes := Closed(s, i)) else s
    case Create(product) => if product.sku in s.catalogue then s else s.(catalogue := s.catalogue[product.sku := product])
    case Delete(sku) => s.(catalogue := s.catalogue - {sku})
  }

  ghost function Run(s: System, steps: seq<Step>): System {
    if steps == [] then s else Do(Run(s, steps[..|steps| - 1]), steps[|steps| - 1])
  }

  function Times(log: seq<nat>, run: nat): nat {
    if log == [] then 0 else Times(log[..|log| - 1], run) + if log[|log| - 1] == run then 1 else 0
  }

  /** Every previewed run has distinct SKUs; run `id` has been added at most once, and then its rows are there. */
  ghost predicate Once(s: System, id: nat) {
    && id < |s.runs| && DistinctSkus(s.runs[id].validRows)
    && (forall i | 0 <= i < |s.runs| :: DistinctSkus(s.runs[i].validRows))
    && Times(s.log, id) <= 1
    && (Times(s.log, id) == 1 ==> Skus(s.runs[id].validRows) <= s.catalogue.Keys)
  }

  lemma StepKeepsOnce(s: System, step: Step, id: nat)
    requires Once(s, id) && s.runs[id].validRows != []
    requires step.Delete? ==> step.sku !in Skus(s.runs[id].validRows)
    ensures Once(Do(s, step), id) && |Do(s, step).runs| == |s.runs| && Do(s, step).runs[id].validRows == s.runs[id].validRows
  {
    if step.Finish? && step.process < |s.processes| && CanPublish(s, s.processes[step.process]) {
      var run := s.processes[step.process].run;
      var rows := s.runs[run].validRows;
      AddedKeys(s.catalogue, rows);
      assert (s.log + [run])[..|s.log|] == s.log;
      assert s.runs[id].validRows[0].sku in Skus(s.runs[id].validRows);
    }
  }

  /**
   However commits of a run with rows overlap, its rows are added at most once, as long as none of them is
   deleted again meanwhile.
   */
  lemma {:induction false} AddedAtMostOnce(s: System, steps: seq<Step>, id: nat)
    requires s.log == [] && Once(s, id) && s.runs[id].validRows != []
    requires forall k | 0 <= k < |steps| && steps[k].Delete? :: steps[k].sku !in Skus(s.runs[id].validRows)
    ensures Times(Run(s, steps).log, id) <= 1
    ensures Once(Run(s, steps), id) && Run(s, steps).runs[id].validRows == s.runs[id].validRows
  {
    if steps != [] {
      AddedAtMostOnce(s, steps[..|steps| - 1], id);
      StepKeepsOnce(Run(s, steps[..|steps| - 1]), steps[|steps| - 1], id);
    }
  }

  /** Nothing stops a run without rows from being committed twice at once; that adds nothing either time. */
  lemma EmptyRunCommitsTwice(s: System, id: nat)
    requires id < |s.runs| && s.runs[id].status == PREVIEW && s.runs[id].validRows == []
    ensures var n := |s.processes|;
            var after := Do(Do(Do(Do(s, Begin(id)), Begin(id)), Finish(n)), Finish(n + 1));
            after.log == s.log + [id] + [id] && after.catalogue == s.catalogue
  {
    assert Skus([]) == {};
  }

  ghost predicate KeepsRows(s: System, id: nat, steps: seq<Step>)
    requires id < |s.runs|
  {
    forall k | 0 <= k < |steps| && steps[k].Delete? :: steps[k].sku !in Skus(s.runs[id].validRows)
  }

  /** So a previewed run is added at most once, in every run that deletes none of its rows, exactly when it has rows. */
  lemma AddedAtMostOnceIff(s: System, id: nat)
    requires s.log == [] && Once(s, id) && s.runs[id].status == PREVIEW
    ensures s.runs[id].validRows != [] <==> forall steps | KeepsRows(s, id, steps) :: Times(Run(s, steps).log, id) <= 1
  {
    if s.runs[id].validRows != [] {
      forall steps | KeepsRows(s, id, steps) ensures Times(Run(s, steps).log, id) <= 1 {
        AddedAtMostOnce(s, steps, id);
      }
    } else {
      var steps := EmptyTwice(s, id);
      EmptyTwiceRuns(s, id);
      assert KeepsRows(s, id, steps);
    }
  }

  ghost function EmptyTwice(s: System, id: nat): seq<Step> {
    [Begin(id), Begin(id), Finish(|s.processes|), Finish(|s.processes| + 1)]
  }

  lemma RunOneMore(s: System, steps: seq<Step>, step: Step)
    ensures Run(s, steps + [step]) == Do(Run(s, steps), step)
  {
    assert (steps + [step])[..|steps|] == steps;
  }

  lemma EmptyTwiceRuns(s: System, id: nat)
    requires s.log == [] && id < |s.runs| && s.runs[id].status == PREVIEW && s.runs[id].validRows == []
    ensures Times(Run(s, EmptyTwice(s, id)).log, id) == 2
  {
    var steps, n := EmptyTwice(s, id), |s.processes|;
    assert steps == [] + [Begin(id)] + [Begin(id)] + [Finish(n)] + [Finish(n + 1)];
    RunOneMore(s, [], Begin(id));
    RunOneMore(s, [] + [Begin(id)], Begin(id));
    RunOneMore(s, [] + [Begin(id)] + [Begin(id)], Finish(n));
    RunOneMore(s, [] + [Begin(id)] + [Begin(id)] + [Finish(n)], Finish(n + 1));
    EmptyRunCommitsTwice(s, id);
    assert s.log + [id] + [id] == [id, id];
    TwoTimes(id);
  }

  lemma TwoTimes(id: nat)
    ensures Times([id, id], id) == 2
  {
    assert [id, id][..1] == [id] && [id][..0] == [];
    assert Times([id], id) == 1;
  }
}
