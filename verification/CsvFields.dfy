/** What each field of a parsed participant is, column by column, and on which cells it depends. */
module CsvFields {
  import opened Sequences
  import opened Text
  import opened CsvDocument

  // ----- cells and values

  /** A cell is cleaned of the white space at its ends, then of all quotes. */
  lemma CleanIs(before: string, middle: string, after: string)
    requires AllSpace(before) && AllSpace(after)
    requires middle == "" || (!IsSpace(middle[0]) && !IsSpace(middle[|middle| - 1]))
    ensures Clean(before + middle + after) == Filter(middle, (c: char) => c != '"')
  {
    TrimIs(before, middle, after);
    DeleteIsFilter(middle, '"');
  }

  /** Not empty, without white space and without `@`. */
  ghost predicate AddressPart(s: string) {
    s != "" && forall c :: c in s ==> !IsSpace(c) && c != '@'
  }

  ghost predicate Address(email: string, user: string, host: string, domain: string) {
    email == user + "@" + host + "." + domain && AddressPart(user) && AddressPart(host) && AddressPart(domain)
  }

  /** The e-mail check accepts exactly three such parts with an `@` and a dot between them. */
  lemma ValidEmailIs(email: string)
    ensures ValidEmail(email) <==> exists user, host, domain :: Address(email, user, host, domain)
  {
    if ValidEmail(email) {
      var at, dot :| 0 < at && at + 1 < dot < |email| - 1 && email[at] == '@' && email[dot] == '.' &&
                     forall i :: 0 <= i < |email| && email[i] == '@' ==> i == at;
      ValidIsAddress(email, at, dot);
    }
    if user, host, domain :| Address(email, user, host, domain) {
      AddressIsValid(email, user, host, domain);
    }
  }

  lemma ValidIsAddress(email: string, at: nat, dot: nat)
    requires 0 < at && at + 1 < dot < |email| - 1 && email[at] == '@' && email[dot] == '.'
    requires forall i :: 0 <= i < |email| ==> !IsSpace(email[i]) && (email[i] == '@' ==> i == at)
    ensures Address(email, email[..at], email[at + 1..dot], email[dot + 1..])
  {
    assert email == email[..at] + "@" + email[at + 1..dot] + "." + email[dot + 1..];
  }

  lemma AddressIsValid(email: string, user: string, host: string, domain: string)
    requires Address(email, user, host, domain)
    ensures ValidEmail(email)
  {
    var at, dot := |user|, |user| + 1 + |host|;
    assert email[at] == '@' && email[dot] == '.';
    forall i | 0 <= i < |email| ensures !IsSpace(email[i]) && (email[i] == '@' ==> i == at) {
      if i < at {
        assert email[i] == user[i] && user[i] in user;
      } else if at < i < dot {
        assert email[i] == host[i - at - 1] && host[i - at - 1] in host;
      } else if dot < i {
        assert email[i] == domain[i - dot - 1] && domain[i - dot - 1] in domain;
      }
    }
  }

  /** A list cell: the pieces between commas, trimmed, in order, without the blank ones. */
  lemma ListIs(pieces: seq<string>)
    requires pieces != [] && forall p :: p in pieces ==> ',' !in p
    ensures var text := Join(pieces, ",");
            ParseList(text) == if text == "" then Null
                               else Given(Filter(Map(pieces, Trim), (s: string) => |s| > 0))
  {
    SplitJoined(pieces, ',');
    assert [','] == ",";
  }

  // ----- columns

  /** Column `k` is the first one with this header. */
  ghost predicate First(headers: seq<string>, name: string, k: nat) {
    k < |headers| && headers[k] == name && forall j :: 0 <= j < k ==> headers[j] != name
  }

  /** The text in column `k` of a row; a row that is too short has none there. */
  function TextAt(values: seq<string>, k: nat): string {
    if k < |values| then values[k] else ""
  }

  /** A field that is the trimmed text of its column; nothing without the column, or without text. */
  ghost predicate TextColumn(headers: seq<string>, values: seq<string>, name: string, field: Maybe<string>) {
    && (name !in headers ==> field == Undefined)
    && (forall k: nat :: First(headers, name, k) ==>
          field == if Trim(TextAt(values, k)) == "" then Undefined else Given(Trim(TextAt(values, k))))
  }

  /** A field that is the normalised text of its column; nothing without the column, or when that is empty. */
  ghost predicate HandleColumn(headers: seq<string>, values: seq<string>, name: string,
                               normalize: string -> string, field: Maybe<string>)
  {
    && (name !in headers ==> field == Undefined)
    && (forall k: nat :: First(headers, name, k) ==>
          field == if normalize(TextAt(values, k)) == "" then Undefined else Given(normalize(TextAt(values, k))))
  }

  /** A field that is decoded from the text of its column; nothing without the column, `null` without text. */
  ghost predicate ValueColumn<T(!new)>(headers: seq<string>, values: seq<string>, name: string,
                                 decode: string -> Maybe<T>, field: Maybe<T>)
  {
    && (name !in headers ==> field == Undefined)
    && (forall k: nat :: First(headers, name, k) ==>
          field == if TextAt(values, k) == "" then Null else decode(TextAt(values, k)))
  }

  /** The text reads as yes. */
  ghost predicate Yes(d: Decoders, text: string) {
    Trim(d.lower(text)) == "true" || Trim(d.lower(text)) == "1" || Trim(d.lower(text)) == "yes"
    || Trim(d.lower(text)) == "y"
  }

  /** A number, or `null` where none can be read from the trimmed text. */
  function NumberIn(d: Decoders, text: string): Maybe<real> {
    match d.parseFloat(Trim(text))
    case None => Null
    case Some(x) => Given(x)
  }

  ghost predicate EmailColumn(d: Decoders, headers: seq<string>, values: seq<string>, email: string) {
    && ("email" !in headers ==> email == "")
    && (forall k: nat :: First(headers, "email", k) ==>
          email == if k < |values| then d.lower(Trim(values[k])) else "")
  }

  ghost predicate NameColumn(headers: seq<string>, values: seq<string>, name: string) {
    && ("name" !in headers ==> name == "")
    && (forall k: nat :: First(headers, "name", k) ==> name == Trim(TextAt(values, k)))
  }

  ghost predicate AcceptedColumn(d: Decoders, headers: seq<string>, values: seq<string>, accepted: Maybe<bool>) {
    && ("sec_rules_accepted" !in headers ==> accepted == Undefined)
    && (forall k: nat :: First(headers, "sec_rules_accepted", k) ==>
          accepted == Given(TextAt(values, k) != "" && Yes(d, TextAt(values, k))))
  }

  ghost predicate LeadColumn(d: Decoders, headers: seq<string>, values: seq<string>, lead: bool) {
    && ("team_lead" !in headers ==> lead)
    && (forall k: nat :: First(headers, "team_lead", k) ==>
          (lead <==> TextAt(values, k) == "" || Yes(d, TextAt(values, k))))
  }

  ghost predicate ErrorsShown(p: Participant) {
    p.errors == (if p.email == "" then ["Email is required"]
                 else if !ValidEmail(p.email) then ["Invalid email format"] else [])
                + (if p.name == "" then ["Name is required"] else [])
  }

  /** The fields that are texts. */
  ghost predicate ReadsTexts(d: Decoders, headers: seq<string>, values: seq<string>, p: Participant) {
    && EmailColumn(d, headers, values, p.email)
    && NameColumn(headers, values, p.name)
    && TextColumn(headers, values, "organization", p.organization)
    && TextColumn(headers, values, "organization_email", p.organizationEmail)
    && HandleColumn(headers, values, "twitter_handler", d.xHandle, p.twitterHandler)
    && HandleColumn(headers, values, "linkedin_handler", d.linkedInHandle, p.linkedinHandler)
    && HandleColumn(headers, values, "telegram_handler", d.telegramHandle, p.telegramHandler)
    && TextColumn(headers, values, "role", p.role)
  }

  /** The fields that are decoded. */
  ghost predicate ReadsValues(d: Decoders, headers: seq<string>, values: seq<string>, p: Participant) {
    && ValueColumn(headers, values, "investment_type", d.investmentType, p.investmentType)
    && ValueColumn(headers, values, "typical_check_size", (text: string) => NumberIn(d, text), p.typicalCheckSize)
    && ValueColumn(headers, values, "invest_in_startup_stages", ParseList, p.investInStartupStages)
    && AcceptedColumn(d, headers, values, p.secRulesAccepted)
    && LeadColumn(d, headers, values, p.makeTeamLead)
  }

  /** Every field comes from the first column with its own header; the lead flag and the errors follow. */
  ghost predicate ReadsRow(d: Decoders, headers: seq<string>, values: seq<string>, p: Participant) {
    && ReadsTexts(d, headers, values, p)
    && ReadsValues(d, headers, values, p)
    && (p.willBeTeamLead <==> p.makeTeamLead || (p.organization.Given? && p.organization.value != ""))
    && ErrorsShown(p)
  }

  // ----- what a row gives

  /** A looked-up cell is the one in the first column of that header. */
  lemma GetFirst(headers: seq<string>, values: seq<string>, name: string, k: nat)
    requires First(headers, name, k)
    ensures Get(headers, values, name) == if k < |values| then Cell(values[k]) else NoCell
    ensures OrEmpty(Get(headers, values, name)) == TextAt(values, k)
  {
    var i := IndexOf(headers, name);
    assert i == k;
  }

  lemma FirstsRead(headers: seq<string>, values: seq<string>, name: string)
    ensures name !in headers ==> Get(headers, values, name) == NoColumn
    ensures forall k: nat :: First(headers, name, k) ==>
              Get(headers, values, name) == (if k < |values| then Cell(values[k]) else NoCell)
              && OrEmpty(Get(headers, values, name)) == TextAt(values, k)
  {
    forall k: nat | First(headers, name, k)
      ensures Get(headers, values, name) == (if k < |values| then Cell(values[k]) else NoCell)
              && OrEmpty(Get(headers, values, name)) == TextAt(values, k)
    {
      GetFirst(headers, values, name, k);
    }
  }

  lemma TextReads(headers: seq<string>, values: seq<string>, name: string)
    ensures TextColumn(headers, values, name, OrUndefined(Trim(OrEmpty(Get(headers, values, name)))))
  {
    FirstsRead(headers, values, name);
  }

  lemma HandleReads(headers: seq<string>, values: seq<string>, name: string, normalize: string -> string)
    ensures HandleColumn(headers, values, name, normalize, Handle(Get(headers, values, name), normalize))
  {
    FirstsRead(headers, values, name);
  }

  lemma ValueReads<T(!new)>(headers: seq<string>, values: seq<string>, name: string,
                      decode: string -> Maybe<T>, whole: string -> Maybe<T>)
    requires forall text :: whole(text) == if text == "" then Null else decode(text)
    ensures ValueColumn(headers, values, name, decode, Decoded(Get(headers, values, name), whole))
  {
    FirstsRead(headers, values, name);
  }

  lemma EmailReads(d: Decoders, headers: seq<string>, values: seq<string>)
    ensures EmailColumn(d, headers, values, EmailOf(d, headers, values))
  {
    FirstsRead(headers, values, "email");
  }

  lemma NameReads(headers: seq<string>, values: seq<string>)
    ensures NameColumn(headers, values, Trim(OrEmpty(Get(headers, values, "name"))))
  {
    FirstsRead(headers, values, "name");
  }

  lemma YesIs(d: Decoders, text: string)
    ensures ParseBoolean(d, text) <==> text != "" && Yes(d, text)
  {
  }

  lemma AcceptedReads(d: Decoders, headers: seq<string>, values: seq<string>)
    ensures AcceptedColumn(d, headers, values,
                           Decoded(Get(headers, values, "sec_rules_accepted"),
                                   (text: string) => Given(ParseBoolean(d, text))))
  {
    FirstsRead(headers, values, "sec_rules_accepted");
    forall text ensures ParseBoolean(d, text) <==> text != "" && Yes(d, text) {
      YesIs(d, text);
    }
  }

  lemma LeadReads(d: Decoders, headers: seq<string>, values: seq<string>)
    ensures var text := OrEmpty(Get(headers, values, "team_lead"));
            LeadColumn(d, headers, values, text == "" || ParseBoolean(d, text))
  {
    FirstsRead(headers, values, "team_lead");
    YesIs(d, OrEmpty(Get(headers, values, "team_lead")));
  }

  lemma TextsAreRead(d: Decoders, headers: seq<string>, values: seq<string>)
    ensures ReadsTexts(d, headers, values, ParseRow(d, headers, values))
  {
    EmailReads(d, headers, values);
    NameReads(headers, values);
    TextReads(headers, values, "organization");
    TextReads(headers, values, "organization_email");
    TextReads(headers, values, "role");
    HandleReads(headers, values, "twitter_handler", d.xHandle);
    HandleReads(headers, values, "linkedin_handler", d.linkedInHandle);
    HandleReads(headers, values, "telegram_handler", d.telegramHandle);
  }

  lemma ValuesAreRead(d: Decoders, headers: seq<string>, values: seq<string>)
    ensures ReadsValues(d, headers, values, ParseRow(d, headers, values))
  {
    ValueReads(headers, values, "investment_type", d.investmentType,
               (text: string) => if text == "" then Null else d.investmentType(text));
    ValueReads(headers, values, "typical_check_size", (text: string) => NumberIn(d, text),
               (text: string) => ParseNumber(d, text));
    ValueReads(headers, values, "invest_in_startup_stages", ParseList, ParseList);
    AcceptedReads(d, headers, values);
    LeadReads(d, headers, values);
  }

  lemma RowIsRead(d: Decoders, headers: seq<string>, values: seq<string>)
    ensures ReadsRow(d, headers, values, ParseRow(d, headers, values))
  {
    TextsAreRead(d, headers, values);
    ValuesAreRead(d, headers, values);
  }

  // ----- what a file gives

  ghost predicate HasEmail(d: Decoders, headers: seq<string>, row: seq<string>) {
    exists k: nat :: First(headers, "email", k) && k < |row| && d.lower(Trim(row[k])) != ""
  }

  /** The participants are the rows with an e-mail, one after the other, each read from its own cells. */
  ghost predicate ReadsRows(d: Decoders, headers: seq<string>, rows: seq<seq<string>>, list: seq<Participant>) {
    if rows == [] then list == []
    else if HasEmail(d, headers, rows[0]) then
      list != [] && ReadsRow(d, headers, rows[0], list[0]) && ReadsRows(d, headers, rows[1..], list[1..])
    else ReadsRows(d, headers, rows[1..], list)
  }

  lemma HasEmailIs(d: Decoders, headers: seq<string>, row: seq<string>)
    ensures HasEmail(d, headers, row) <==> EmailOf(d, headers, row) != ""
  {
    FirstsRead(headers, row, "email");
    var i := IndexOf(headers, "email");
    if i >= 0 {
      assert First(headers, "email", i);
    }
  }

  lemma {:induction false} EmittedAreRead(d: Decoders, headers: seq<string>, rows: seq<seq<string>>)
    ensures ReadsRows(d, headers, rows, Emitted(d, headers, rows))
  {
    if rows != [] {
      EmittedAreRead(d, headers, rows[1..]);
      EmittedCons(d, headers, rows, rows[0]);
      EmittedOne(d, headers, rows[0]);
      HasEmailIs(d, headers, rows[0]);
      RowIsRead(d, headers, rows[0]);
      var list, rest := Emitted(d, headers, rows), Emitted(d, headers, rows[1..]);
      if HasEmail(d, headers, rows[0]) {
        assert list[1..] == rest;
      } else {
        assert list == rest;
      }
    }
  }

  /** What a file gives: one of three errors and nobody, or the participants its rows and headers say. */
  lemma FileIsRead(d: Decoders, content: string)
    ensures var table, result := Table(content), ParseCsv(d, content);
            && (table == [] ==> result == CsvResult([], ["CSV file is empty"]))
            && (|table| == 1 ==>
                  result == CsvResult([], ["CSV must contain at least a header row and one data row"]))
            && (|table| >= 2 ==>
                  var headers := Map(table[0], d.header);
                  && ("email" !in headers ==> result == CsvResult([], ["CSV must contain an \"email\" column"]))
                  && ("email" in headers ==>
                        result.errors == [] && ReadsRows(d, headers, table[1..], result.participants)))
  {
    var table := Table(content);
    if |table| >= 2 {
      EmittedAreRead(d, Map(table[0], d.header), table[1..]);
    }
  }

  // ----- what a field does not depend on

  /** The first column with this header, if there is one, is not column `k`. */
  ghost predicate Elsewhere(headers: seq<string>, k: nat, name: string) {
    !First(headers, name, k)
  }

  lemma SameTextElsewhere(headers: seq<string>, values: seq<string>, k: nat, text: string, name: string)
    requires k < |values| && Elsewhere(headers, k, name) && name in headers
    ensures exists i: nat :: First(headers, name, i) && TextAt(values[k := text], i) == TextAt(values, i)
  {
    assert First(headers, name, IndexOf(headers, name));
  }

  lemma TextStays(headers: seq<string>, values: seq<string>, k: nat, text: string, name: string,
                  p: Maybe<string>, q: Maybe<string>)
    requires k < |values| && TextColumn(headers, values, name, p) && TextColumn(headers, values[k := text], name, q)
    ensures Elsewhere(headers, k, name) ==> q == p
  {
    if Elsewhere(headers, k, name) && name in headers { SameTextElsewhere(headers, values, k, text, name); }
  }

  lemma HandleStays(headers: seq<string>, values: seq<string>, k: nat, text: string, name: string,
                    normalize: string -> string, p: Maybe<string>, q: Maybe<string>)
    requires k < |values| && HandleColumn(headers, values, name, normalize, p)
    requires HandleColumn(headers, values[k := text], name, normalize, q)
    ensures Elsewhere(headers, k, name) ==> q == p
  {
    if Elsewhere(headers, k, name) && name in headers { SameTextElsewhere(headers, values, k, text, name); }
  }

  lemma ValueStays<T(!new)>(headers: seq<string>, values: seq<string>, k: nat, text: string, name: string,
                            decode: string -> Maybe<T>, p: Maybe<T>, q: Maybe<T>)
    requires k < |values| && ValueColumn(headers, values, name, decode, p)
    requires ValueColumn(headers, values[k := text], name, decode, q)
    ensures Elsewhere(headers, k, name) ==> q == p
  {
    if Elsewhere(headers, k, name) && name in headers { SameTextElsewhere(headers, values, k, text, name); }
  }

  lemma EmailStays(d: Decoders, headers: seq<string>, values: seq<string>, k: nat, text: string, p: string, q: string)
    requires k < |values| && EmailColumn(d, headers, values, p) && EmailColumn(d, headers, values[k := text], q)
    ensures Elsewhere(headers, k, "email") ==> q == p
  {
    if "email" in headers { assert First(headers, "email", IndexOf(headers, "email")); }
  }

  lemma NameStays(headers: seq<string>, values: seq<string>, k: nat, text: string, p: string, q: string)
    requires k < |values| && NameColumn(headers, values, p) && NameColumn(headers, values[k := text], q)
    ensures Elsewhere(headers, k, "name") ==> q == p
  {
    if "name" in headers { assert First(headers, "name", IndexOf(headers, "name")); }
  }

  lemma AcceptedStays(d: Decoders, headers: seq<string>, values: seq<string>, k: nat, text: string,
                      p: Maybe<bool>, q: Maybe<bool>)
    requires k < |values| && AcceptedColumn(d, headers, values, p)
    requires AcceptedColumn(d, headers, values[k := text], q)
    ensures Elsewhere(headers, k, "sec_rules_accepted") ==> q == p
  {
    if "sec_rules_accepted" in headers {
      assert First(headers, "sec_rules_accepted", IndexOf(headers, "sec_rules_accepted"));
    }
  }

  lemma LeadStays(d: Decoders, headers: seq<string>, values: seq<string>, k: nat, text: string, p: bool, q: bool)
    requires k < |values| && LeadColumn(d, headers, values, p) && LeadColumn(d, headers, values[k := text], q)
    ensures Elsewhere(headers, k, "team_lead") ==> q == p
  {
    if "team_lead" in headers { assert First(headers, "team_lead", IndexOf(headers, "team_lead")); }
  }

  /** Changing a cell leaves every field alone that is not read from its column. */
  lemma OtherCellsDoNotCount(d: Decoders, headers: seq<string>, values: seq<string>, k: nat, text: string,
                             p: Participant, q: Participant)
    requires k < |values| && ReadsRow(d, headers, values, p) && ReadsRow(d, headers, values[k := text], q)
    ensures Elsewhere(headers, k, "email") ==> q.email == p.email
    ensures Elsewhere(headers, k, "name") ==> q.name == p.name
    ensures Elsewhere(headers, k, "organization") ==> q.organization == p.organization
    ensures Elsewhere(headers, k, "organization_email") ==> q.organizationEmail == p.organizationEmail
    ensures Elsewhere(headers, k, "twitter_handler") ==> q.twitterHandler == p.twitterHandler
    ensures Elsewhere(headers, k, "linkedin_handler") ==> q.linkedinHandler == p.linkedinHandler
    ensures Elsewhere(headers, k, "telegram_handler") ==> q.telegramHandler == p.telegramHandler
    ensures Elsewhere(headers, k, "role") ==> q.role == p.role
    ensures Elsewhere(headers, k, "investment_type") ==> q.investmentType == p.investmentType
    ensures Elsewhere(headers, k, "typical_check_size") ==> q.typicalCheckSize == p.typicalCheckSize
    ensures Elsewhere(headers, k, "invest_in_startup_stages") ==> q.investInStartupStages == p.investInStartupStages
    ensures Elsewhere(headers, k, "sec_rules_accepted") ==> q.secRulesAccepted == p.secRulesAccepted
    ensures Elsewhere(headers, k, "team_lead") ==> q.makeTeamLead == p.makeTeamLead
  {
    EmailStays(d, headers, values, k, text, p.email, q.email);
    NameStays(headers, values, k, text, p.name, q.name);
    TextStays(headers, values, k, text, "organization", p.organization, q.organization);
    TextStays(headers, values, k, text, "organization_email", p.organizationEmail, q.organizationEmail);
    HandleStays(headers, values, k, text, "twitter_handler", d.xHandle, p.twitterHandler, q.twitterHandler);
    HandleStays(headers, values, k, text, "linkedin_handler", d.linkedInHandle, p.linkedinHandler, q.linkedinHandler);
    HandleStays(headers, values, k, text, "telegram_handler", d.telegramHandle, p.telegramHandler, q.telegramHandler);
    TextStays(headers, values, k, text, "role", p.role, q.role);
    ValueStays(headers, values, k, text, "investment_type", d.investmentType, p.investmentType, q.investmentType);
    ValueStays(headers, values, k, text, "typical_check_size", (t: string) => NumberIn(d, t),
               p.typicalCheckSize, q.typicalCheckSize);
    ValueStays(headers, values, k, text, "invest_in_startup_stages", ParseList,
               p.investInStartupStages, q.investInStartupStages);
    AcceptedStays(d, headers, values, k, text, p.secRulesAccepted, q.secRulesAccepted);
    LeadStays(d, headers, values, k, text, p.makeTeamLead, q.makeTeamLead);
  }
}
