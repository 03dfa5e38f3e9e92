/** The investor CSV as a whole: lines, header-driven rows, and what the result does not depend on. */
module CsvDocument {
  import opened Sequences
  import opened Text
  import opened CsvLine

  datatype Maybe<+T> = Undefined | Null | Given(value: T)

  datatype InvestmentType = ANGEL | FUND | ANGEL_AND_FUND

  datatype Participant = Participant(
    email: string,
    name: string,
    organization: Maybe<string>,
    organizationEmail: Maybe<string>,
    twitterHandler: Maybe<string>,
    linkedinHandler: Maybe<string>,
    telegramHandler: Maybe<string>,
    role: Maybe<string>,
    investmentType: Maybe<InvestmentType>,
    typicalCheckSize: Maybe<real>,
    investInStartupStages: Maybe<seq<string>>,
    secRulesAccepted: Maybe<bool>,
    makeTeamLead: bool,
    willBeTeamLead: bool,
    errors: seq<string>)

  /** The text-to-value functions a row goes through; every result below holds for any choice of them. */
  datatype Decoders = Decoders(
    header: string -> string,
    lower: string -> string,
    xHandle: string -> string,
    linkedInHandle: string -> string,
    telegramHandle: string -> string,
    investmentType: string -> Maybe<InvestmentType>,
    parseFloat: string -> Option<real>)

  datatype CsvResult = CsvResult(participants: seq<Participant>, errors: seq<string>)

  const EMAIL_REQUIRED := "Email is required"
  const EMAIL_INVALID := "Invalid email format"
  const NAME_REQUIRED := "Name is required"

  // ----- cells

  /** One `@` with something before it, then a dot with something on both sides, and no white space. */
  predicate ValidEmail(email: string) {
    && (forall i :: 0 <= i < |email| ==> !IsSpace(email[i]))
    && (exists at, dot ::
          0 < at && at + 1 < dot < |email| - 1 && email[at] == '@' && email[dot] == '.' &&
          forall i :: 0 <= i < |email| && email[i] == '@' ==> i == at)
  }

  function Clean(cell: string): string {
    Delete(Trim(cell), QUOTE)
  }

  function Cells(line: string): seq<string> {
    Map(Parse(line), Clean)
  }

  function Lines(content: string): seq<string> {
    SplitAt(content, '\n')
  }

  predicate NotBlank(line: string) {
    Trim(line) != ""
  }

  function TableOf(lines: seq<string>): seq<seq<string>> {
    Map(Filter(lines, NotBlank), Cells)
  }

  /** The cells of every line that is not blank. */
  function Table(content: string): seq<seq<string>> {
    TableOf(Lines(content))
  }

  // ----- rows

  /** `headers.indexOf(name)`. */
  function IndexOf(headers: seq<string>, name: string): (i: int)
    ensures -1 <= i < |headers|
    ensures i == -1 <==> name !in headers
    ensures i >= 0 ==> headers[i] == name && forall j :: 0 <= j < i ==> headers[j] != name
  {
    if headers == [] then -1
    else if headers[0] == name then 0
    else
      var i := IndexOf(headers[1..], name);
      if i == -1 then -1 else i + 1
  }

  datatype Column = NoColumn | NoCell | Cell(text: string)

  function CellAt(values: seq<string>, index: int): Column {
    if index < 0 then NoColumn else if index < |values| then Cell(values[index]) else NoCell
  }

  function Get(headers: seq<string>, values: seq<string>, name: string): Column {
    CellAt(values, IndexOf(headers, name))
  }

  /** `cell || ''`. */
  function OrEmpty(c: Column): string {
    if c.Cell? then c.text else ""
  }

  /** `text || undefined`. */
  function OrUndefined(text: string): Maybe<string> {
    if text == "" then Undefined else Given(text)
  }

  function ParseBoolean(d: Decoders, text: string): bool {
    text != "" && Trim(d.lower(text)) in ["true", "1", "yes", "y"]
  }

  function ParseNumber(d: Decoders, text: string): Maybe<real> {
    if text == "" then Null
    else match d.parseFloat(Trim(text))
         case None => Null
         case Some(x) => Given(x)
  }

  function ParseList(text: string): Maybe<seq<string>> {
    if text == "" then Null
    else Given(Filter(Map(SplitAt(text, ','), Trim), (s: string) => |s| > 0))
  }

  function Handle(c: Column, normalize: string -> string): Maybe<string> {
    if c == NoColumn then Undefined else OrUndefined(normalize(OrEmpty(c)))
  }

  /** `index >= 0 ? decode(values[index] || '') : undefined`. */
  function Decoded<T>(c: Column, decode: string -> Maybe<T>): Maybe<T> {
    if c == NoColumn then Undefined else decode(OrEmpty(c))
  }

  function RowErrors(email: string, name: string): seq<string> {
    (if email == "" then [EMAIL_REQUIRED] else if !ValidEmail(email) then [EMAIL_INVALID] else [])
    + (if name == "" then [NAME_REQUIRED] else [])
  }

  predicate Present(m: Maybe<string>) {
    m.Given? && m.value != ""
  }

  /** The cells a row is read from, one for each known header. */
  datatype Picked = Picked(
    email: Column, name: Column, organization: Column, organizationEmail: Column, twitterHandler: Column,
    linkedinHandler: Column, telegramHandler: Column, role: Column, investmentType: Column, typicalCheckSize: Column,
    investInStartupStages: Column, secRulesAccepted: Column, teamLead: Column)

  function Pick(headers: seq<string>, values: seq<string>): Picked {
    Picked(
      Get(headers, values, "email"), Get(headers, values, "name"),
      Get(headers, values, "organization"), Get(headers, values, "organization_email"),
      Get(headers, values, "twitter_handler"), Get(headers, values, "linkedin_handler"),
      Get(headers, values, "telegram_handler"), Get(headers, values, "role"),
      Get(headers, values, "investment_type"), Get(headers, values, "typical_check_size"),
      Get(headers, values, "invest_in_startup_stages"), Get(headers, values, "sec_rules_accepted"),
      Get(headers, values, "team_lead"))
  }

  function EmailFrom(d: Decoders, cell: Column): string {
    if cell.Cell? then d.lower(Trim(cell.text)) else ""
  }

  function RowFrom(d: Decoders, cells: Picked): Participant {
    var email := EmailFrom(d, cells.email);
    var name := Trim(OrEmpty(cells.name));
    var organization := OrUndefined(Trim(OrEmpty(cells.organization)));
    var lead := OrEmpty(cells.teamLead);
    var makeTeamLead := lead == "" || ParseBoolean(d, lead);
    Participant(
      email, name, organization,
      OrUndefined(Trim(OrEmpty(cells.organizationEmail))),
      Handle(cells.twitterHandler, d.xHandle),
      Handle(cells.linkedinHandler, d.linkedInHandle),
      Handle(cells.telegramHandler, d.telegramHandle),
      OrUndefined(Trim(OrEmpty(cells.role))),
      Decoded(cells.investmentType, (text: string) => if text == "" then Null else d.investmentType(text)),
      Decoded(cells.typicalCheckSize, (text: string) => ParseNumber(d, text)),
      Decoded(cells.investInStartupStages, ParseList),
      Decoded(cells.secRulesAccepted, (text: string) => Given(ParseBoolean(d, text))),
      makeTeamLead,
      Present(organization) || makeTeamLead,
      RowErrors(email, name))
  }

  function EmailOf(d: Decoders, headers: seq<string>, values: seq<string>): string {
    EmailFrom(d, Get(headers, values, "email"))
  }

  function ParseRow(d: Decoders, headers: seq<string>, values: seq<string>): Participant {
    RowFrom(d, Pick(headers, values))
  }

  /** The rows with an e-mail address, in order. */
  function Emitted(d: Decoders, headers: seq<string>, rows: seq<seq<string>>): seq<Participant> {
    Map(Filter(rows, (r: seq<string>) => EmailOf(d, headers, r) != ""), (r: seq<string>) => ParseRow(d, headers, r))
  }

  function ParseTable(d: Decoders, table: seq<seq<string>>): CsvResult {
    if |table| == 0 then CsvResult([], ["CSV file is empty"])
    else if |table| < 2 then CsvResult([], ["CSV must contain at least a header row and one data row"])
    else ParseData(d, Map(table[0], d.header), table[1..])
  }

  function ParseData(d: Decoders, headers: seq<string>, rows: seq<seq<string>>): CsvResult {
    if "email" !in headers then CsvResult([], ["CSV must contain an \"email\" column"])
    else CsvResult(Emitted(d, headers, rows), [])
  }

  function ParseCsv(d: Decoders, content: string): CsvResult {
    ParseTable(d, Table(content))
  }

  /** The places of the known headers, looked up once; -1 where a header is missing. */
  datatype Places = Places(
    email: int, name: int, organization: int, organizationEmail: int, twitterHandler: int, linkedinHandler: int,
    telegramHandler: int, role: int, investmentType: int, typicalCheckSize: int, investInStartupStages: int,
    secRulesAccepted: int, teamLead: int)

  function PlacesOf(headers: seq<string>): Places {
    Places(
      IndexOf(headers, "email"), IndexOf(headers, "name"),
      IndexOf(headers, "organization"), IndexOf(headers, "organization_email"),
      IndexOf(headers, "twitter_handler"), IndexOf(headers, "linkedin_handler"),
      IndexOf(headers, "telegram_handler"), IndexOf(headers, "role"),
      IndexOf(headers, "investment_type"), IndexOf(headers, "typical_check_size"),
      IndexOf(headers, "invest_in_startup_stages"), IndexOf(headers, "sec_rules_accepted"),
      IndexOf(headers, "team_lead"))
  }

  method ParseInvestorCsv(d: Decoders, csvContent: string) returns (result: CsvResult)
    ensures result == ParseCsv(d, csvContent)
  {
    var lines := Filter(Lines(csvContent), NotBlank);
    if |lines| == 0 {
      return CsvResult([], ["CSV file is empty"]);
    }
    if |lines| < 2 {
      return CsvResult([], ["CSV must contain at least a header row and one data row"]);
    }
    var rawHeaders := ParseInvestorCsvLine(lines[0]);
    var headers := Map(Map(rawHeaders, Clean), d.header);
    if IndexOf(headers, "email") == -1 {
      return CsvResult([], ["CSV must contain an \"email\" column"]);
    }
    var participants := ParseDataRows(d, headers, lines);
    result := CsvResult(participants, []);
  }

  /** The loop over `lines[1..]`. */
  method ParseDataRows(d: Decoders, headers: seq<string>, lines: seq<string>) returns (participants: seq<Participant>)
    requires |lines| > 0
    ensures participants == Emitted(d, headers, Map(lines, Cells)[1..])
  {
    var places := PlacesOf(headers);
    ghost var table := Map(lines, Cells);
    participants := [];
    for i := 1 to |lines|
      invariant participants == Emitted(d, headers, table[1..i])
    {
      var participant := ParseDataRow(d, places, lines[i], headers);
      EmittedSnoc(d, headers, table, i);
      if participant.email != "" {
        participants := participants + [participant];
      }
    }
    assert table[1..|table|] == table[1..];
  }

  function PickAt(values: seq<string>, places: Places): Picked {
    Picked(
      CellAt(values, places.email), CellAt(values, places.name),
      CellAt(values, places.organization), CellAt(values, places.organizationEmail),
      CellAt(values, places.twitterHandler), CellAt(values, places.linkedinHandler),
      CellAt(values, places.telegramHandler), CellAt(values, places.role),
      CellAt(values, places.investmentType), CellAt(values, places.typicalCheckSize),
      CellAt(values, places.investInStartupStages), CellAt(values, places.secRulesAccepted),
      CellAt(values, places.teamLead))
  }

  lemma PickAtPlaces(headers: seq<string>, values: seq<string>)
    ensures PickAt(values, PlacesOf(headers)) == Pick(headers, values)
  {
  }

  /** The body of the loop over the data rows. */
  method ParseDataRow(d: Decoders, places: Places, line: string, ghost headers: seq<string>)
    returns (participant: Participant)
    requires places == PlacesOf(headers)
    ensures participant == ParseRow(d, headers, Cells(line))
    ensures participant.email == EmailOf(d, headers, Cells(line))
  {
    var fields := ParseInvestorCsvLine(line);
    var values := Map(fields, Clean);
    PickAtPlaces(headers, values);
    participant := ReadCells(d, places, values);
  }

  /** The cells of a row one by one, the errors pushed on the way. */
  method ReadCells(d: Decoders, places: Places, values: seq<string>) returns (participant: Participant)
    ensures participant == RowFrom(d, PickAt(values, places))
  {
    var email, name, rowErrors := RequiredCells(d, places, values);
    var organization := OptionalText(values, places.organization);
    var organizationEmail := OptionalText(values, places.organizationEmail);
    var twitterHandler := OptionalHandle(values, places.twitterHandler, d.xHandle);
    var linkedinHandler := OptionalHandle(values, places.linkedinHandler, d.linkedInHandle);
    var telegramHandler := OptionalHandle(values, places.telegramHandler, d.telegramHandle);
    var role := OptionalText(values, places.role);
    var investmentType := OptionalValue(values, places.investmentType,
                                        (text: string) => if text == "" then Null else d.investmentType(text));
    var typicalCheckSize := OptionalValue(values, places.typicalCheckSize, (text: string) => ParseNumber(d, text));
    var investInStartupStages := OptionalValue(values, places.investInStartupStages, ParseList);
    var secRulesAccepted := OptionalValue(values, places.secRulesAccepted,
                                          (text: string) => Given(ParseBoolean(d, text)));
    var makeTeamLead := MakeTeamLead(d, values, places.teamLead);
    var willBeTeamLead := Present(organization) || makeTeamLead;
    participant := Participant(
      email, name, organization, organizationEmail, twitterHandler, linkedinHandler, telegramHandler, role,
      investmentType, typicalCheckSize, investInStartupStages, secRulesAccepted, makeTeamLead, willBeTeamLead,
      rowErrors);
  }

  /** The two required cells and the errors they give. */
  method RequiredCells(d: Decoders, places: Places, values: seq<string>)
    returns (email: string, name: string, rowErrors: seq<string>)
    ensures email == EmailFrom(d, CellAt(values, places.email))
    ensures name == Trim(OrEmpty(CellAt(values, places.name)))
    ensures rowErrors == RowErrors(email, name)
  {
    rowErrors := [];
    email := "";
    if 0 <= places.email < |values| {
      email := d.lower(Trim(values[places.email]));
    }
    if email == "" {
      rowErrors := rowErrors + [EMAIL_REQUIRED];
    } else if !ValidEmail(email) {
      rowErrors := rowErrors + [EMAIL_INVALID];
    }
    name := "";
    if 0 <= places.name < |values| {
      name := Trim(values[places.name]);
    }
    if name == "" {
      rowErrors := rowErrors + [NAME_REQUIRED];
    }
  }

  /** `values[index]?.trim() || undefined`. */
  method OptionalText(values: seq<string>, index: int) returns (text: Maybe<string>)
    ensures text == OrUndefined(Trim(OrEmpty(CellAt(values, index))))
  {
    text := Undefined;
    if 0 <= index < |values| && Trim(values[index]) != "" {
      text := Given(Trim(values[index]));
    }
  }

  /** Nothing for a missing column; a missing cell is normalised like an empty one. */
  method OptionalHandle(values: seq<string>, index: int, normalize: string -> string) returns (handle: Maybe<string>)
    ensures index < 0 ==> handle == Undefined
    ensures index >= |values| ==> handle == OrUndefined(normalize(""))
    ensures 0 <= index < |values| ==> handle == OrUndefined(normalize(values[index]))
    ensures handle == Handle(CellAt(values, index), normalize)
  {
    handle := Undefined;
    if index >= 0 {
      var normalized := if index < |values| then normalize(values[index]) else normalize("");
      if normalized != "" {
        handle := Given(normalized);
      }
    }
  }

  /** Nothing for a missing column; a missing cell is decoded like an empty one. */
  method OptionalValue<T>(values: seq<string>, index: int, decode: string -> Maybe<T>) returns (value: Maybe<T>)
    ensures index < 0 ==> value == Undefined
    ensures index >= |values| ==> value == decode("")
    ensures 0 <= index < |values| ==> value == decode(values[index])
    ensures value == Decoded(CellAt(values, index), decode)
  {
    value := Undefined;
    if index >= 0 {
      value := if index < |values| then decode(values[index]) else decode("");
    }
  }

  /** A missing column and an empty cell both mean yes. */
  method MakeTeamLead(d: Decoders, values: seq<string>, index: int) returns (lead: bool)
    ensures lead == (OrEmpty(CellAt(values, index)) == "" || ParseBoolean(d, OrEmpty(CellAt(values, index))))
  {
    if index >= 0 {
      if index >= |values| || values[index] == "" {
        lead := true;
      } else {
        lead := ParseBoolean(d, values[index]);
      }
    } else {
      lead := true;
    }
  }

  lemma EmittedAppend(d: Decoders, headers: seq<string>, a: seq<seq<string>>, b: seq<seq<string>>)
    ensures Emitted(d, headers, a + b) == Emitted(d, headers, a) + Emitted(d, headers, b)
  {
    var hasEmail := (r: seq<string>) => EmailOf(d, headers, r) != "";
    FilterAppend(a, b, hasEmail);
    MapAppend(Filter(a, hasEmail), Filter(b, hasEmail), (r: seq<string>) => ParseRow(d, headers, r));
  }

  lemma EmittedOne(d: Decoders, headers: seq<string>, row: seq<string>)
    ensures Emitted(d, headers, [row]) ==
              if EmailOf(d, headers, row) != "" then [ParseRow(d, headers, row)] else []
  {
    assert [row][1..] == [];
  }

  lemma EmittedSnoc(d: Decoders, headers: seq<string>, table: seq<seq<string>>, i: nat)
    requires 1 <= i < |table|
    ensures Emitted(d, headers, table[1..i + 1]) ==
              Emitted(d, headers, table[1..i])
              + (if EmailOf(d, headers, table[i]) != "" then [ParseRow(d, headers, table[i])] else [])
  {
    assert table[1..i + 1] == table[1..i] + [table[i]];
    EmittedAppend(d, headers, table[1..i], [table[i]]);
    EmittedOne(d, headers, table[i]);
  }

  // ----- line ends and blank lines

  /** `replace(/\n/g, '\r\n')`. */
  function ToCrlf(s: string): string {
    if s == "" then "" else (if s[0] == '\n' then "\r\n" else [s[0]]) + ToCrlf(s[1..])
  }

  /** Every line but the last gets a carriage return. */
  function WithReturns(lines: seq<string>): seq<string> {
    if |lines| <= 1 then lines else [lines[0] + "\r"] + WithReturns(lines[1..])
  }

  lemma {:induction false} WithReturnsPrefixed(prefix: string, lines: seq<string>)
    requires lines != []
    ensures WithReturns(Prefixed(prefix, lines)) == Prefixed(prefix, WithReturns(lines))
  {
    assert Prefixed(prefix, lines)[1..] == lines[1..];
    if |lines| > 1 {
      assert prefix + lines[0] + "\r" == prefix + (lines[0] + "\r");
      assert ([lines[0] + "\r"] + WithReturns(lines[1..]))[1..] == WithReturns(lines[1..]);
    }
  }

  lemma LinesPrefixed(c: char, s: string)
    requires c != '\n'
    ensures Lines([c] + s) == Prefixed([c], Lines(s))
  {
    assert ([c] + s)[1..] == s;
  }

  lemma {:induction false} CrlfLines(content: string)
    ensures Lines(ToCrlf(content)) == WithReturns(Lines(content))
  {
    if content != "" {
      var c, rest := content[0], content[1..];
      CrlfLines(rest);
      if c == '\n' {
        var s := "\n" + ToCrlf(rest);
        assert ToCrlf(content) == "\r" + s;
        assert s[1..] == ToCrlf(rest);
        LinesPrefixed('\r', s);
        var tail := Lines(ToCrlf(rest));
        assert Lines(s) == [""] + tail && ([""] + tail)[1..] == tail;
        assert "\r" + "" == "\r" && "" + "\r" == "\r";
        assert Lines(content)[1..] == Lines(rest);
      } else {
        LinesPrefixed(c, ToCrlf(rest));
        WithReturnsPrefixed([c], Lines(rest));
      }
    }
  }

  lemma CleanIgnoresTail(cell: string, tail: string)
    requires AllSpace(tail)
    ensures Clean(cell + tail) == Clean(cell)
  {
    TrimEndSpace(cell, tail);
  }

  lemma ParseOfTailed(line: string, tail: string)
    requires AllSpace(tail)
    ensures var fields := Parse(line);
            Parse(line + tail) == fields[..|fields| - 1] + [fields[|fields| - 1] + tail]
  {
    assert QUOTE !in tail && COMMA !in tail;
    ScanTail(line, tail, "", false);
  }

  /** Trailing white space goes to the last field, quoted or not, and is then trimmed. */
  lemma CellsIgnoreTail(line: string, tail: string)
    requires AllSpace(tail)
    ensures Cells(line + tail) == Cells(line)
    ensures NotBlank(line + tail) <==> NotBlank(line)
  {
    var fields := Parse(line);
    TrimEndSpace(line, tail);
    ParseOfTailed(line, tail);
    CleanIgnoresTail(fields[|fields| - 1], tail);
  }

  lemma TableAppend(a: seq<string>, b: seq<string>)
    ensures TableOf(a + b) == TableOf(a) + TableOf(b)
  {
    FilterAppend(a, b, NotBlank);
    MapAppend(Filter(a, NotBlank), Filter(b, NotBlank), Cells);
  }

  lemma TableOfOne(line: string)
    ensures TableOf([line]) == if NotBlank(line) then [Cells(line)] else []
  {
    assert [line][1..] == [];
  }

  lemma {:induction false} TableIgnoresReturns(lines: seq<string>)
    ensures TableOf(WithReturns(lines)) == TableOf(lines)
  {
    if |lines| > 1 {
      TableIgnoresReturns(lines[1..]);
      CellsIgnoreTail(lines[0], "\r");
      TableAppend([lines[0] + "\r"], WithReturns(lines[1..]));
      TableOfOne(lines[0] + "\r");
      TableOfOne(lines[0]);
      TableAppend([lines[0]], lines[1..]);
      assert lines == [lines[0]] + lines[1..];
    }
  }

  lemma CrlfTable(content: string)
    ensures Table(ToCrlf(content)) == Table(content)
  {
    CrlfLines(content);
    TableIgnoresReturns(Lines(content));
  }

  /** Turning every line end from LF into CRLF never changes the result. */
  lemma CrlfInvariance(d: Decoders, content: string)
    ensures ParseCsv(d, ToCrlf(content)) == ParseCsv(d, content)
  {
    CrlfTable(content);
  }

  /** Every line with its own white space at the end. */
  function WithTails(lines: seq<string>, tails: seq<string>): seq<string>
    requires |lines| == |tails|
  {
    if lines == [] then [] else [lines[0] + tails[0]] + WithTails(lines[1..], tails[1..])
  }

  lemma {:induction false} TableIgnoresTails(lines: seq<string>, tails: seq<string>)
    requires |lines| == |tails| && forall t :: t in tails ==> AllSpace(t)
    ensures TableOf(WithTails(lines, tails)) == TableOf(lines)
  {
    if lines != [] {
      var line, tail := lines[0], tails[0];
      assert tail in tails;
      TableIgnoresTails(lines[1..], tails[1..]);
      CellsIgnoreTail(line, tail);
      TableAppend([line + tail], WithTails(lines[1..], tails[1..]));
      TableOfOne(line + tail);
      TableOfOne(line);
      TableAppend([line], lines[1..]);
      assert lines == [line] + lines[1..];
    }
  }

  lemma {:induction false} TailsBreakNoLine(lines: seq<string>, tails: seq<string>)
    requires |lines| == |tails| > 0
    requires forall l :: l in lines ==> '\n' !in l
    requires forall t :: t in tails ==> '\n' !in t
    ensures WithTails(lines, tails) != [] && forall l :: l in WithTails(lines, tails) ==> '\n' !in l
  {
    assert lines[0] in lines && tails[0] in tails;
    if |lines| > 1 {
      TailsBreakNoLine(lines[1..], tails[1..]);
    } else {
      assert WithTails(lines[1..], tails[1..]) == [];
    }
  }

  lemma {:induction false} LinesHaveNoBreak(content: string)
    ensures forall l :: l in Lines(content) ==> '\n' !in l
  {
    if content != "" {
      LinesHaveNoBreak(content[1..]);
      var rest := Lines(content[1..]);
      assert rest[0] in rest;
    }
  }

  /**
   Line ends may be mixed at will: putting a carriage return, or other white space, at the end of any
   lines of a file never changes the result.
   */
  lemma MixedLineEnds(d: Decoders, content: string, tails: seq<string>)
    requires |tails| == |Lines(content)|
    requires forall t :: t in tails ==> AllSpace(t) && '\n' !in t
    ensures ParseCsv(d, Join(WithTails(Lines(content), tails), "\n")) == ParseCsv(d, content)
  {
    LinesHaveNoBreak(content);
    TailsBreakNoLine(Lines(content), tails);
    SplitJoined(WithTails(Lines(content), tails), '\n');
    TableIgnoresTails(Lines(content), tails);
  }

  lemma {:induction false} BlankTable(lines: seq<string>)
    requires forall l :: l in lines ==> !NotBlank(l)
    ensures TableOf(lines) == []
  {
    FilterDropsAll(lines, NotBlank);
  }

  lemma {:induction false} BlankPieces(s: string)
    requires AllSpace(s)
    ensures forall l :: l in Lines(s) ==> !NotBlank(l)
  {
    if s == "" {
    } else {
      assert s[0] in s;
      assert forall c :: c in s[1..] ==> c in s;
      BlankPieces(s[1..]);
      var rest := Lines(s[1..]);
      if s[0] != '\n' {
        var first := [s[0]] + rest[0];
        TrimEmpty(rest[0]);
        assert rest[0] in rest;
        assert forall c :: c in first ==> c == s[0] || c in rest[0];
        TrimEmpty(first);
        assert forall l :: l in [first] + rest[1..] ==> l == first || l in rest;
      }
    }
  }

  /** A line break splits the table. */
  lemma TableSplit(a: string, b: string)
    ensures Table(a + "\n" + b) == Table(a) + Table(b)
  {
    SplitAppend(a, b, '\n');
    TableAppend(Lines(a), Lines(b));
  }

  lemma NoTableOfBlank(blank: string)
    requires AllSpace(blank)
    ensures Table(blank) == []
  {
    BlankPieces(blank);
    BlankTable(Lines(blank));
  }

  /** Blank lines, however many and of whatever white space, may be inserted between any two lines. */
  lemma BlankLinesInside(d: Decoders, before: string, blank: string, after: string)
    requires AllSpace(blank)
    ensures ParseCsv(d, before + "\n" + blank + "\n" + after) == ParseCsv(d, before + "\n" + after)
  {
    TableSplit(before + "\n" + blank, after);
    TableSplit(before, blank);
    TableSplit(before, after);
    NoTableOfBlank(blank);
    assert Table(before) + [] == Table(before);
  }

  /** The same before the first and after the last line. */
  lemma BlankLinesOutside(d: Decoders, blank: string, content: string)
    requires AllSpace(blank)
    ensures ParseCsv(d, blank + "\n" + content) == ParseCsv(d, content)
    ensures ParseCsv(d, content + "\n" + blank) == ParseCsv(d, content)
  {
    TableSplit(blank, content);
    TableSplit(content, blank);
    NoTableOfBlank(blank);
    assert [] + Table(content) == Table(content) == Table(content) + [];
  }

  // ----- printed documents

  datatype PrintedRow = PrintedRow(fields: seq<string>, quoted: seq<bool>)

  /** Admissible quoting (section 2 of RFC 4180): a field with a line break is quoted too. Not a blank line. */
  predicate WellPrinted(row: PrintedRow) {
    && |row.fields| == |row.quoted| > 0
    && (forall i :: 0 <= i < |row.fields| ==> Printable(row.fields[i], row.quoted[i]))
    && (forall i :: 0 <= i < |row.fields| ==> row.quoted[i] || '\n' !in row.fields[i])
    && NotBlank(PrintLine(row.fields, row.quoted))
  }

  /** No field of the row holds a line break. */
  predicate NoBreaks(row: PrintedRow) {
    forall i :: 0 <= i < |row.fields| ==> '\n' !in row.fields[i]
  }

  function PrintedLines(rows: seq<PrintedRow>): seq<string>
    requires forall r :: r in rows ==> WellPrinted(r)
  {
    if rows == [] then []
    else
      assert WellPrinted(rows[0]) by { assert rows[0] in rows; }
      [PrintLine(rows[0].fields, rows[0].quoted)] + PrintedLines(rows[1..])
  }

  function PrintDocument(rows: seq<PrintedRow>): string
    requires forall r :: r in rows ==> WellPrinted(r)
  {
    Join(PrintedLines(rows), "\n")
  }

  function CleanRows(rows: seq<PrintedRow>): seq<seq<string>> {
    if rows == [] then [] else [Map(rows[0].fields, Clean)] + CleanRows(rows[1..])
  }

  lemma {:induction false} DoubledHas(s: string, c: char)
    requires c !in s && c != QUOTE
    ensures c !in Doubled(s)
  {
    if s != "" {
      DoubledHas(s[1..], c);
    }
  }

  lemma {:induction false} PrintedOnOneLine(fields: seq<string>, quoted: seq<bool>)
    requires |fields| == |quoted| > 0 && forall i :: 0 <= i < |fields| ==> '\n' !in fields[i]
    ensures '\n' !in PrintLine(fields, quoted)
    decreases |fields|
  {
    DoubledHas(fields[0], '\n');
    if |fields| > 1 {
      PrintedOnOneLine(fields[1..], quoted[1..]);
    }
  }

  lemma {:induction false} PrintedTable(rows: seq<PrintedRow>)
    requires forall r :: r in rows ==> WellPrinted(r) && NoBreaks(r)
    ensures forall l :: l in PrintedLines(rows) ==> '\n' !in l
    ensures TableOf(PrintedLines(rows)) == CleanRows(rows)
  {
    if rows != [] {
      var row := rows[0];
      assert row in rows;
      var line := PrintLine(row.fields, row.quoted);
      PrintedTable(rows[1..]);
      PrintedOnOneLine(row.fields, row.quoted);
      RoundTrip(row.fields, row.quoted);
      TableAppend([line], PrintedLines(rows[1..]));
      TableOfOne(line);
    }
  }

  /** Some piece holds the character at a place. */
  lemma {:induction false} PieceWith(s: string, i: nat) returns (piece: string)
    requires i < |s| && s[i] != '\n'
    ensures piece in Lines(s) && s[i] in piece
  {
    var rest := Lines(s[1..]);
    if i == 0 {
      piece := [s[0]] + rest[0];
    } else {
      piece := PieceWith(s[1..], i - 1);
      if s[0] != '\n' && piece == rest[0] {
        piece := [s[0]] + rest[0];
      } else if s[0] != '\n' {
        assert piece in rest[1..];
      }
    }
  }

  lemma TableNotEmpty(s: string, i: nat)
    requires i < |s| && !IsSpace(s[i])
    ensures Table(s) != []
  {
    var piece := PieceWith(s, i);
    TrimEmpty(piece);
    assert piece in Filter(Lines(s), NotBlank);
  }

  /** A break between two other characters makes two rows or more. */
  lemma BreakMakesRows(s: string, before: nat, at: nat, after: nat)
    requires before < at < after < |s| && s[at] == '\n' && !IsSpace(s[before]) && !IsSpace(s[after])
    ensures |Table(s)| >= 2
  {
    var a, b := s[..at], s[at + 1..];
    assert s == a + "\n" + b;
    TableSplit(a, b);
    TableNotEmpty(a, before);
    TableNotEmpty(b, after - at - 1);
  }

  lemma {:induction false} DoubledKeeps(s: string, c: char) returns (k: nat)
    requires c in s
    ensures k < |Doubled(s)| && Doubled(s)[k] == c
  {
    if s[0] == c {
      k := 0;
    } else {
      k := DoubledKeeps(s[1..], c);
      k := k + if s[0] == QUOTE then 2 else 1;
    }
  }

  lemma BreakInQuotes(field: string) returns (at: nat)
    requires '\n' in field
    ensures var s := PrintField(field, true);
            0 < at < |s| - 1 && s[0] == QUOTE && s[at] == '\n' && s[|s| - 1] == QUOTE
  {
    var k := DoubledKeeps(field, '\n');
    at := k + 1;
  }

  lemma PrintLineAt(fields: seq<string>, quoted: seq<bool>, k: nat)
    requires |fields| == |quoted| > 0
    ensures var line, first := PrintLine(fields, quoted), PrintField(fields[0], quoted[0]);
            && (k < |first| ==> k < |line| && line[k] == first[k])
            && (|fields| > 1 && k < |PrintLine(fields[1..], quoted[1..])| ==>
                  k + |first| + 1 < |line| && line[k + |first| + 1] == PrintLine(fields[1..], quoted[1..])[k])
  {
  }

  /** Quoted, a break in a field is printed between the quotes around the field. */
  lemma {:induction false} BreakBetweenQuotes(fields: seq<string>, quoted: seq<bool>, i: nat)
    returns (before: nat, at: nat, after: nat)
    requires |fields| == |quoted| && i < |fields| && quoted[i] && '\n' in fields[i]
    ensures var line := PrintLine(fields, quoted);
            && before < at < after < |line|
            && line[before] == QUOTE && line[at] == '\n' && line[after] == QUOTE
    decreases |fields|
  {
    if i == 0 {
      at := BreakInQuotes(fields[0]);
      before, after := 0, |PrintField(fields[0], quoted[0])| - 1;
      PrintLineAt(fields, quoted, before);
      PrintLineAt(fields, quoted, at);
      PrintLineAt(fields, quoted, after);
    } else {
      before, at, after := BreakBetweenQuotes(fields[1..], quoted[1..], i - 1);
      PrintLineAt(fields, quoted, before);
      PrintLineAt(fields, quoted, at);
      PrintLineAt(fields, quoted, after);
      var skipped := |PrintField(fields[0], quoted[0])| + 1;
      before, at, after := before + skipped, at + skipped, after + skipped;
    }
  }

  lemma RowCount(row: PrintedRow)
    requires WellPrinted(row)
    ensures var n := |Table(PrintLine(row.fields, row.quoted))|; n >= 1 && (!NoBreaks(row) ==> n >= 2)
  {
    var line := PrintLine(row.fields, row.quoted);
    TrimEmpty(line);
    var i :| 0 <= i < |line| && !IsSpace(line[i]);
    TableNotEmpty(line, i);
    if !NoBreaks(row) {
      var field :| 0 <= field < |row.fields| && '\n' in row.fields[field];
      var before, at, after := BreakBetweenQuotes(row.fields, row.quoted, field);
      BreakMakesRows(line, before, at, after);
    }
  }

  lemma DocumentOfOne(row: PrintedRow)
    requires WellPrinted(row)
    ensures PrintDocument([row]) == PrintLine(row.fields, row.quoted)
  {
    assert [row][1..] == [] && PrintedLines([row]) == [PrintLine(row.fields, row.quoted)];
  }

  lemma TableOfMore(rows: seq<PrintedRow>)
    requires |rows| > 1 && forall r :: r in rows ==> WellPrinted(r)
    ensures rows[0] in rows
    ensures Table(PrintDocument(rows))
            == Table(PrintLine(rows[0].fields, rows[0].quoted)) + Table(PrintDocument(rows[1..]))
  {
    assert rows[0] in rows;
    TableSplit(PrintLine(rows[0].fields, rows[0].quoted), PrintDocument(rows[1..]));
  }

  /** A printed row is read back as one row or more. */
  lemma {:induction false} RowsAtLeast(rows: seq<PrintedRow>)
    requires rows != [] && forall r :: r in rows ==> WellPrinted(r)
    ensures |Table(PrintDocument(rows))| >= |rows|
  {
    assert rows[0] in rows;
    RowCount(rows[0]);
    if |rows| > 1 {
      RowsAtLeast(rows[1..]);
      TableOfMore(rows);
    } else {
      assert rows == [rows[0]];
      DocumentOfOne(rows[0]);
    }
  }

  /** Where a field holds a line break, there are more rows than were printed. */
  lemma {:induction false} RowsMore(rows: seq<PrintedRow>, broken: PrintedRow)
    requires broken in rows && !NoBreaks(broken) && forall r :: r in rows ==> WellPrinted(r)
    ensures |Table(PrintDocument(rows))| > |rows|
  {
    assert rows[0] in rows;
    RowCount(rows[0]);
    if |rows| > 1 {
      TableOfMore(rows);
      RowsAtLeast(rows[1..]);
      if broken != rows[0] {
        assert broken in rows[1..];
        RowsMore(rows[1..], broken);
      }
    } else {
      assert rows == [rows[0]];
      DocumentOfOne(rows[0]);
    }
  }

  lemma {:induction false} CleanRowsCount(rows: seq<PrintedRow>)
    ensures |CleanRows(rows)| == |rows|
  {
    if rows != [] {
      CleanRowsCount(rows[1..]);
    }
  }

  /**
   Printing rows and reading them back gives the trimmed cells without their quotes, exactly when no field
   holds a line break: lines are cut before they are scanned, also inside quotes.
   */
  lemma DocumentRoundTrip(rows: seq<PrintedRow>)
    requires rows != [] && forall r :: r in rows ==> WellPrinted(r)
    ensures Table(PrintDocument(rows)) == CleanRows(rows) <==> forall r :: r in rows ==> NoBreaks(r)
  {
    if forall r :: r in rows ==> NoBreaks(r) {
      PrintedTable(rows);
      SplitJoined(PrintedLines(rows), '\n');
    } else {
      var broken :| broken in rows && !NoBreaks(broken);
      RowsMore(rows, broken);
      CleanRowsCount(rows);
    }
  }

  lemma TableOfLine(line: string)
    requires '\n' !in line
    ensures Table(line) == if NotBlank(line) then [Cells(line)] else []
  {
    SplitWhole(line, '\n');
    TableOfOne(line);
  }

  predicate Letter(c: char) {
    !IsSpace(c) && c != QUOTE && c != COMMA
  }

  lemma CleanLetter(c: char)
    requires Letter(c)
    ensures Clean([c]) == [c] && Trim([c]) == [c]
  {
    assert Delete([c], QUOTE) == [c] + Delete([c][1..], QUOTE);
  }

  /** A letter after an opening quote. */
  lemma CellsOfOpened(c: char)
    requires Letter(c)
    ensures NotBlank([QUOTE, c]) && Cells([QUOTE, c]) == [[c]]
  {
    var line := [QUOTE, c];
    TrimEmpty(line);
    assert line[0] in line && line[1..] == [c];
    PlainTail([c], "", true);
    assert "" + [c] == [c];
    CleanLetter(c);
  }

  /** A letter before a quote. */
  lemma CellsOfClosed(c: char)
    requires Letter(c)
    ensures NotBlank([c, QUOTE]) && Cells([c, QUOTE]) == [[c]]
  {
    var line := [c, QUOTE];
    TrimEmpty(line);
    assert line[0] in line && line[1..] == [QUOTE] && [QUOTE][1..] == "";
    assert ScanFrom([QUOTE], [c], false) == ScanFrom("", [c], true) == [[c]];
    assert "" + [c] == [c];
    CleanLetter(c);
  }

  lemma QuotedBreakLine(a: char, b: char)
    requires a != QUOTE && b != QUOTE
    ensures PrintLine([[a, '\n', b]], [true]) == [QUOTE, a] + "\n" + [b, QUOTE]
  {
    var field := [a, '\n', b];
    assert field[1..] == ['\n', b] && field[1..][1..] == [b] && [b][1..] == "";
    assert Doubled([b]) == [b] && Doubled(['\n', b]) == ['\n', b] && Doubled(field) == field;
  }

  lemma PrintedOne(row: PrintedRow)
    requires |row.fields| == |row.quoted| > 0 && row.quoted[0]
    requires forall i :: 0 <= i < |row.fields| ==> Printable(row.fields[i], row.quoted[i])
    requires forall i :: 0 <= i < |row.fields| ==> row.quoted[i] || '\n' !in row.fields[i]
    ensures WellPrinted(row) && PrintDocument([row]) == PrintLine(row.fields, row.quoted)
  {
    var line := PrintLine(row.fields, row.quoted);
    TrimEmpty(line);
    assert line[0] == QUOTE && line[0] in line;
    DocumentOfOne(row);
  }

  lemma BreakTable(a: char, b: char)
    requires Letter(a) && Letter(b)
    ensures Table([QUOTE, a] + "\n" + [b, QUOTE]) == [[[a]], [[b]]]
  {
    var first, second := [QUOTE, a], [b, QUOTE];
    TableSplit(first, second);
    TableOfLine(first);
    TableOfLine(second);
    CellsOfOpened(a);
    CellsOfClosed(b);
  }

  /** One quoted field with a line break between two letters reads back as two rows. */
  lemma BreakExample(a: char, b: char)
    requires Letter(a) && Letter(b)
    ensures var row := PrintedRow([[a, '\n', b]], [true]);
            WellPrinted(row) && Table(PrintDocument([row])) == [[[a]], [[b]]]
  {
    PrintedOne(PrintedRow([[a, '\n', b]], [true]));
    QuotedBreakLine(a, b);
    BreakTable(a, b);
  }

  // ----- columns

  /** Every column occurs: a rearrangement of `n` columns. */
  ghost predicate Arrangement(order: seq<nat>, n: nat) {
    && |order| == n
    && (forall k :: 0 <= k < n ==> order[k] < n)
    && (forall column: nat :: column < n ==> column in order)
  }

  function Arrange<T>(row: seq<T>, order: seq<nat>): (r: seq<T>)
    requires forall k :: 0 <= k < |order| ==> order[k] < |row|
    ensures |r| == |order|
    ensures forall k :: 0 <= k < |order| ==> r[k] == row[order[k]]
  {
    seq(|order|, k requires 0 <= k < |order| => row[order[k]])
  }

  /** A lookup by name finds the same cell wherever its column stands. */
  lemma GetArranged(headers: seq<string>, values: seq<string>, order: seq<nat>, name: string)
    requires NoRepeats(headers) && |values| == |headers| && Arrangement(order, |headers|)
    ensures Get(Arrange(headers, order), Arrange(values, order), name) == Get(headers, values, name)
  {
    var i, j := IndexOf(headers, name), IndexOf(Arrange(headers, order), name);
    if i >= 0 {
      var column: nat := i;
      assert column in order;
      var k :| 0 <= k < |order| && order[k] == column;
      assert Arrange(headers, order)[k] == name;
    }
    if j >= 0 {
      assert headers[order[j]] == name;
    }
  }

  lemma PickArranged(headers: seq<string>, values: seq<string>, order: seq<nat>)
    requires NoRepeats(headers) && |values| == |headers| && Arrangement(order, |headers|)
    ensures Pick(Arrange(headers, order), Arrange(values, order)) == Pick(headers, values)
  {
    var headers', values' := Arrange(headers, order), Arrange(values, order);
    forall name ensures Get(headers', values', name) == Get(headers, values, name) {
      GetArranged(headers, values, order, name);
    }
  }

  function ArrangeAll(rows: seq<seq<string>>, order: seq<nat>): seq<seq<string>>
    requires forall r :: r in rows ==> |r| == |order|
    requires forall k :: 0 <= k < |order| ==> order[k] < |order|
  {
    if rows == [] then [] else [Arrange(rows[0], order)] + ArrangeAll(rows[1..], order)
  }

  lemma OneArranged(d: Decoders, headers: seq<string>, row: seq<string>, order: seq<nat>)
    requires NoRepeats(headers) && |row| == |headers| && Arrangement(order, |headers|)
    ensures Emitted(d, Arrange(headers, order), [Arrange(row, order)]) == Emitted(d, headers, [row])
  {
    PickArranged(headers, row, order);
    GetArranged(headers, row, order, "email");
    EmittedOne(d, headers, row);
    EmittedOne(d, Arrange(headers, order), Arrange(row, order));
  }

  lemma EmittedCons(d: Decoders, headers: seq<string>, rows: seq<seq<string>>, row: seq<string>)
    requires rows != [] && rows[0] == row
    ensures Emitted(d, headers, rows) == Emitted(d, headers, [row]) + Emitted(d, headers, rows[1..])
  {
    assert rows == [row] + rows[1..];
    EmittedAppend(d, headers, [row], rows[1..]);
  }

  lemma {:induction false} EmittedArranged(d: Decoders, headers: seq<string>, rows: seq<seq<string>>, order: seq<nat>)
    requires NoRepeats(headers) && Arrangement(order, |headers|)
    requires forall r :: r in rows ==> |r| == |headers|
    ensures Emitted(d, Arrange(headers, order), ArrangeAll(rows, order)) == Emitted(d, headers, rows)
  {
    if rows != [] {
      var headers', row, row' := Arrange(headers, order), rows[0], Arrange(rows[0], order);
      assert row in rows;
      OneArranged(d, headers, row, order);
      EmittedArranged(d, headers, rows[1..], order);
      EmittedCons(d, headers, rows, row);
      EmittedCons(d, headers', ArrangeAll(rows, order), row');
      assert ArrangeAll(rows, order)[1..] == ArrangeAll(rows[1..], order);
    }
  }

  lemma {:induction false} ArrangeAllLength(rows: seq<seq<string>>, order: seq<nat>)
    requires forall r :: r in rows ==> |r| == |order|
    requires forall k :: 0 <= k < |order| ==> order[k] < |order|
    ensures |ArrangeAll(rows, order)| == |rows|
  {
    if rows != [] {
      ArrangeAllLength(rows[1..], order);
    }
  }

  lemma HeadersArranged(row: seq<string>, normalize: string -> string, order: seq<nat>)
    requires Arrangement(order, |row|)
    ensures Map(Arrange(row, order), normalize) == Arrange(Map(row, normalize), order)
  {
  }

  lemma DataArranged(d: Decoders, headers: seq<string>, rows: seq<seq<string>>, order: seq<nat>)
    requires NoRepeats(headers) && Arrangement(order, |headers|)
    requires forall r :: r in rows ==> |r| == |headers|
    ensures ParseData(d, Arrange(headers, order), ArrangeAll(rows, order)) == ParseData(d, headers, rows)
  {
    EmittedArranged(d, headers, rows, order);
    GetArranged(headers, headers, order, "email");
  }

  lemma TableIsData(d: Decoders, table: seq<seq<string>>)
    requires |table| >= 2
    ensures ParseTable(d, table) == ParseData(d, Map(table[0], d.header), table[1..])
  {
  }

  lemma ArrangeAllCons(table: seq<seq<string>>, order: seq<nat>)
    requires table != [] && forall r :: r in table ==> |r| == |order|
    requires forall k :: 0 <= k < |order| ==> order[k] < |order|
    ensures |ArrangeAll(table, order)| == |table|
    ensures |table[0]| == |order|
    ensures ArrangeAll(table, order)[0] == Arrange(table[0], order)
    ensures ArrangeAll(table, order)[1..] == ArrangeAll(table[1..], order)
  {
    assert table[0] in table;
    ArrangeAllLength(table, order);
  }

  /** Columns count only by name: rearranging all rows alike, the header included, changes nothing. */
  lemma ColumnsByName(d: Decoders, table: seq<seq<string>>, order: seq<nat>)
    requires table != [] && NoRepeats(Map(table[0], d.header)) && Arrangement(order, |table[0]|)
    requires forall r :: r in table ==> |r| == |table[0]|
    ensures ParseTable(d, ArrangeAll(table, order)) == ParseTable(d, table)
  {
    ArrangeAllCons(table, order);
    if |table| >= 2 {
      TableIsData(d, table);
      TableIsData(d, ArrangeAll(table, order));
      HeadersArranged(table[0], d.header, order);
      DataArranged(d, Map(table[0], d.header), table[1..], order);
    }
  }

  /** `rows'` prints the columns of `rows` in another order, each row with whatever quoting. */
  ghost predicate SameColumns(rows: seq<PrintedRow>, rows': seq<PrintedRow>, order: seq<nat>) {
    && |rows| == |rows'|
    && (forall i :: 0 <= i < |rows| ==>
          |rows[i].fields| == |rows'[i].fields| == |order| &&
          forall k :: 0 <= k < |order| ==> order[k] < |order| && rows'[i].fields[k] == rows[i].fields[order[k]])
  }

  lemma {:induction false} CleanArranged(rows: seq<PrintedRow>, rows': seq<PrintedRow>, order: seq<nat>)
    requires SameColumns(rows, rows', order) && Arrangement(order, |order|)
    ensures forall r :: r in CleanRows(rows) ==> |r| == |order|
    ensures CleanRows(rows') == ArrangeAll(CleanRows(rows), order)
  {
    if rows != [] {
      assert SameColumns(rows[1..], rows'[1..], order);
      CleanArranged(rows[1..], rows'[1..], order);
      var row, row' := Map(rows[0].fields, Clean), Map(rows'[0].fields, Clean);
      assert row' == Arrange(row, order);
    }
  }

  lemma NoBreaksArranged(rows: seq<PrintedRow>, rows': seq<PrintedRow>, order: seq<nat>)
    requires SameColumns(rows, rows', order) && forall r :: r in rows ==> NoBreaks(r)
    ensures forall r :: r in rows' ==> NoBreaks(r)
  {
    forall i | 0 <= i < |rows'| ensures NoBreaks(rows'[i]) {
      assert NoBreaks(rows[i]);
    }
  }

  /** The same on text: a printed file and the file with its columns printed in another order read alike. */
  lemma ColumnsByNameInText(d: Decoders, rows: seq<PrintedRow>, rows': seq<PrintedRow>, order: seq<nat>)
    requires rows != [] && SameColumns(rows, rows', order) && Arrangement(order, |order|)
    requires forall r :: r in rows ==> WellPrinted(r) && NoBreaks(r)
    requires forall r :: r in rows' ==> WellPrinted(r)
    requires NoRepeats(Map(Map(rows[0].fields, Clean), d.header))
    ensures ParseCsv(d, PrintDocument(rows')) == ParseCsv(d, PrintDocument(rows))
  {
    DocumentRoundTrip(rows);
    NoBreaksArranged(rows, rows', order);
    DocumentRoundTrip(rows');
    CleanArranged(rows, rows', order);
    assert CleanRows(rows)[0] == Map(rows[0].fields, Clean);
    ColumnsByName(d, CleanRows(rows), order);
  }
}
