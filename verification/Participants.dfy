/** Editing and removing parsed participants, and what every run of edits keeps. */
module Participants {
  import opened Sequences
  import opened Text
  import opened CsvLine
  import opened CsvDocument

  /** One edit of the table: the field and the value the input control delivers. */
  datatype Edit =
    | EditEmail(email: string)
    | EditName(name: string)
    | EditOrganization(organization: string)
    | EditOrganizationEmail(organizationEmail: string)
    | EditTwitterHandler(twitterHandler: string)
    | EditLinkedinHandler(linkedinHandler: string)
    | EditTelegramHandler(telegramHandler: string)
    | EditRole(role: string)
    | EditInvestmentType(investmentType: Maybe<InvestmentType>)
    | EditTypicalCheckSize(typicalCheckSize: Maybe<real>)
    | EditInvestInStartupStages(stages: Maybe<seq<string>>)
    | EditSecRulesAccepted(accepted: bool)
    | EditMakeTeamLead(makeTeamLead: bool)

  /** `{ ...participant, [field]: value }`. */
  function WithField(p: Participant, edit: Edit): Participant {
    match edit
    case EditEmail(v) => p.(email := v)
    case EditName(v) => p.(name := v)
    case EditOrganization(v) => p.(organization := Given(v))
    case EditOrganizationEmail(v) => p.(organizationEmail := Given(v))
    case EditTwitterHandler(v) => p.(twitterHandler := Given(v))
    case EditLinkedinHandler(v) => p.(linkedinHandler := Given(v))
    case EditTelegramHandler(v) => p.(telegramHandler := Given(v))
    case EditRole(v) => p.(role := Given(v))
    case EditInvestmentType(v) => p.(investmentType := v)
    case EditTypicalCheckSize(v) => p.(typicalCheckSize := v)
    case EditInvestInStartupStages(v) => p.(investInStartupStages := v)
    case EditSecRulesAccepted(v) => p.(secRulesAccepted := Given(v))
    case EditMakeTeamLead(v) => p.(makeTeamLead := v)
  }

  /** The record after an edit, apart from its errors: typed text is trimmed, an e-mail lower-cased too. */
  function Edited(d: Decoders, p: Participant, edit: Edit): Participant {
    var r := WithField(p, edit);
    var q := if edit.EditEmail? then r.(email := d.lower(Trim(edit.email)))
             else if edit.EditName? then r.(name := Trim(edit.name))
             else r;
    q.(willBeTeamLead := Present(q.organization) || q.makeTeamLead)
  }

  /** The errors recomputed after an edit; the format of an e-mail only when the e-mail was edited. */
  function EditedErrors(email: string, name: string, edit: Edit): seq<string> {
    EmailErrors(email, edit) + (if name == "" then [NAME_REQUIRED] else [])
  }

  function EmailErrors(email: string, edit: Edit): seq<string> {
    if email == "" then [EMAIL_REQUIRED] else if edit.EditEmail? && !ValidEmail(email) then [EMAIL_INVALID] else []
  }

  function Revalidated(d: Decoders, p: Participant, edit: Edit): Participant {
    var q := Edited(d, p, edit);
    q.(errors := EditedErrors(q.email, q.name, edit))
  }

  method RevalidateParsedInvestorParticipant(d: Decoders, participant: Participant, edit: Edit)
    returns (updated: Participant)
    ensures updated == Revalidated(d, participant, edit)
    ensures Coherent(updated)
  {
    RevalidatedCoherent(d, participant, edit);
    var record := WithField(participant, edit);
    var email, emailErrors := RevalidateEmail(d, edit, record.email);
    var name, nameErrors := RevalidateName(edit, record.name);
    if edit.EditEmail? {
      record := record.(email := email);
    }
    if edit.EditName? {
      record := record.(name := name);
    }
    record := record.(willBeTeamLead := Present(record.organization) || record.makeTeamLead);
    updated := record.(errors := emailErrors + nameErrors);
  }

  method RevalidateEmail(d: Decoders, edit: Edit, current: string) returns (email: string, errors: seq<string>)
    ensures email == if edit.EditEmail? then d.lower(Trim(edit.email)) else current
    ensures errors == EmailErrors(email, edit)
  {
    email := if edit.EditEmail? then d.lower(Trim(edit.email)) else current;
    errors := [];
    if edit.EditEmail? || current == "" {
      if email == "" {
        errors := errors + [EMAIL_REQUIRED];
      } else if !ValidEmail(email) {
        errors := errors + [EMAIL_INVALID];
      }
    }
  }

  method RevalidateName(edit: Edit, current: string) returns (name: string, errors: seq<string>)
    ensures name == if edit.EditName? then Trim(edit.name) else current
    ensures errors == if name == "" then [NAME_REQUIRED] else []
  {
    name := if edit.EditName? then Trim(edit.name) else current;
    errors := [];
    if edit.EditName? || current == "" {
      if name == "" {
        errors := errors + [NAME_REQUIRED];
      }
    }
  }

  // ----- the list and its runs

  datatype Action = Update(index: nat, edit: Edit) | Remove(index: nat)

  /** `prev.map((p, i) => i === index ? revalidate(p) : p)`. */
  function UpdateParticipant(d: Decoders, list: seq<Participant>, index: nat, edit: Edit): seq<Participant> {
    if index < |list| then list[index := Revalidated(d, list[index], edit)] else list
  }

  /** `prev.filter((_, i) => i !== index)`. */
  function RemoveParticipant(list: seq<Participant>, index: nat): seq<Participant> {
    if index < |list| then list[..index] + list[index + 1..] else list
  }

  function Act(d: Decoders, list: seq<Participant>, action: Action): seq<Participant> {
    match action
    case Update(index, edit) => UpdateParticipant(d, list, index, edit)
    case Remove(index) => RemoveParticipant(list, index)
  }

  function ActAll(d: Decoders, list: seq<Participant>, actions: seq<Action>): seq<Participant> {
    if actions == [] then list
    else Act(d, ActAll(d, list, actions[..|actions| - 1]), actions[|actions| - 1])
  }

  /** The lead flag follows its definition, and the two "required" errors are exactly the empty fields. */
  ghost predicate Coherent(p: Participant) {
    && (p.willBeTeamLead <==> p.makeTeamLead || (p.organization.Given? && p.organization.value != ""))
    && (EMAIL_REQUIRED in p.errors <==> p.email == "")
    && (NAME_REQUIRED in p.errors <==> p.name == "")
  }

  ghost predicate AllCoherent(list: seq<Participant>) {
    forall p :: p in list ==> Coherent(p)
  }

  lemma MessagesDiffer()
    ensures EMAIL_REQUIRED != EMAIL_INVALID && EMAIL_REQUIRED != NAME_REQUIRED && EMAIL_INVALID != NAME_REQUIRED
  {
    assert EMAIL_REQUIRED[0] == 'E';
    assert EMAIL_INVALID[0] == 'I';
    assert NAME_REQUIRED[0] == 'N';
  }

  /** An edit leaves any row coherent, whatever it was before. */
  lemma RevalidatedCoherent(d: Decoders, p: Participant, edit: Edit)
    ensures Coherent(Revalidated(d, p, edit))
  {
    MessagesDiffer();
  }

  /** An edit sets its own field, to the typed value, and no other; lead flag and errors are recomputed. */
  lemma EditSetsItsField(d: Decoders, p: Participant, edit: Edit)
    ensures var q := Revalidated(d, p, edit);
            && q.email == (if edit.EditEmail? then d.lower(Trim(edit.email)) else p.email)
            && q.name == (if edit.EditName? then Trim(edit.name) else p.name)
            && q.organization == (if edit.EditOrganization? then Given(edit.organization) else p.organization)
            && q.organizationEmail
               == (if edit.EditOrganizationEmail? then Given(edit.organizationEmail) else p.organizationEmail)
            && q.twitterHandler == (if edit.EditTwitterHandler? then Given(edit.twitterHandler) else p.twitterHandler)
            && q.linkedinHandler
               == (if edit.EditLinkedinHandler? then Given(edit.linkedinHandler) else p.linkedinHandler)
            && q.telegramHandler
               == (if edit.EditTelegramHandler? then Given(edit.telegramHandler) else p.telegramHandler)
            && q.role == (if edit.EditRole? then Given(edit.role) else p.role)
            && q.investmentType == (if edit.EditInvestmentType? then edit.investmentType else p.investmentType)
            && q.typicalCheckSize == (if edit.EditTypicalCheckSize? then edit.typicalCheckSize else p.typicalCheckSize)
            && q.investInStartupStages
               == (if edit.EditInvestInStartupStages? then edit.stages else p.investInStartupStages)
            && q.secRulesAccepted == (if edit.EditSecRulesAccepted? then Given(edit.accepted) else p.secRulesAccepted)
            && q.makeTeamLead == (if edit.EditMakeTeamLead? then edit.makeTeamLead else p.makeTeamLead)
    ensures var q := Revalidated(d, p, edit);
            q.errors == (if q.email == "" then ["Email is required"]
                         else if edit.EditEmail? && !ValidEmail(q.email) then ["Invalid email format"] else [])
                        + (if q.name == "" then ["Name is required"] else [])
  {
  }

  lemma ParsedRowCoherent(d: Decoders, headers: seq<string>, values: seq<string>)
    ensures Coherent(ParseRow(d, headers, values))
  {
    var p := RowFrom(d, Pick(headers, values));
    RowErrorsAre(p.email, p.name);
  }

  lemma RowErrorsAre(email: string, name: string)
    ensures EMAIL_REQUIRED in RowErrors(email, name) <==> email == ""
    ensures NAME_REQUIRED in RowErrors(email, name) <==> name == ""
  {
    MessagesDiffer();
  }

  lemma ParsedCoherent(d: Decoders, content: string)
    ensures AllCoherent(ParseCsv(d, content).participants)
  {
    var table := Table(content);
    if |table| >= 2 {
      EmittedCoherent(d, Map(table[0], d.header), table[1..]);
    }
  }

  lemma EmittedCoherent(d: Decoders, headers: seq<string>, rows: seq<seq<string>>)
    ensures AllCoherent(Emitted(d, headers, rows))
  {
    var list := Emitted(d, headers, rows);
    var kept := Filter(rows, (r: seq<string>) => EmailOf(d, headers, r) != "");
    forall p | p in list ensures Coherent(p) {
      var i :| 0 <= i < |list| && list[i] == p;
      assert list[i] == ParseRow(d, headers, kept[i]);
      ParsedRowCoherent(d, headers, kept[i]);
    }
  }

  lemma {:induction false} RunsStayCoherent(d: Decoders, list: seq<Participant>, actions: seq<Action>)
    requires AllCoherent(list)
    ensures AllCoherent(ActAll(d, list, actions))
  {
    if actions != [] {
      RunsStayCoherent(d, list, actions[..|actions| - 1]);
      ActStaysCoherent(d, ActAll(d, list, actions[..|actions| - 1]), actions[|actions| - 1]);
    }
  }

  lemma ActStaysCoherent(d: Decoders, list: seq<Participant>, action: Action)
    requires AllCoherent(list)
    ensures AllCoherent(Act(d, list, action))
  {
    if action.Update? && action.index < |list| {
      RevalidatedCoherent(d, list[action.index], action.edit);
    }
  }

  /** Over every run from a file, a row that shows no error has an e-mail and a name, and its lead flag is right. */
  lemma CleanRowsAreFilled(d: Decoders, content: string, actions: seq<Action>, p: Participant)
    requires p in ActAll(d, ParseCsv(d, content).participants, actions)
    ensures p.errors == [] ==> p.email != "" && p.name != ""
    ensures p.willBeTeamLead <==> p.makeTeamLead || (p.organization.Given? && p.organization.value != "")
  {
    ParsedCoherent(d, content);
    RunsStayCoherent(d, ParseCsv(d, content).participants, actions);
  }

  // ----- the format of an e-mail at the submit gate

  function EditAll(d: Decoders, p: Participant, edits: seq<Edit>): Participant {
    if edits == [] then p else Revalidated(d, EditAll(d, p, edits[..|edits| - 1]), edits[|edits| - 1])
  }

  /** As a row comes out of the parser: both fields checked, the format included. */
  ghost predicate FullyChecked(p: Participant) {
    p.errors == RowErrors(p.email, p.name)
  }

  /** The e-mail a row is left with: that of the last e-mail edit, trimmed and lower-cased, else the first one. */
  function EmailAfter(d: Decoders, email: string, edits: seq<Edit>): string {
    if edits == [] then email
    else
      match edits[|edits| - 1]
      case EditEmail(v) => d.lower(Trim(v))
      case _ => EmailAfter(d, email, edits[..|edits| - 1])
  }

  /** The same for the name. */
  function NameAfter(name: string, edits: seq<Edit>): string {
    if edits == [] then name
    else
      match edits[|edits| - 1]
      case EditName(v) => Trim(v)
      case _ => NameAfter(name, edits[..|edits| - 1])
  }

  /** Whether the last edit is one of the e-mail, so that its format has been checked last. */
  predicate EmailEditedLast(edits: seq<Edit>) {
    edits != [] && edits[|edits| - 1].EditEmail?
  }

  lemma TypedText(d: Decoders, p: Participant, edit: Edit)
    ensures Revalidated(d, p, edit).email == if edit.EditEmail? then d.lower(Trim(edit.email)) else p.email
    ensures Revalidated(d, p, edit).name == if edit.EditName? then Trim(edit.name) else p.name
  {
  }

  lemma {:induction false} TypedTextStays(d: Decoders, parsed: Participant, edits: seq<Edit>)
    ensures EditAll(d, parsed, edits).email == EmailAfter(d, parsed.email, edits)
    ensures EditAll(d, parsed, edits).name == NameAfter(parsed.name, edits)
  {
    if edits != [] {
      TypedTextStays(d, parsed, edits[..|edits| - 1]);
      TypedText(d, EditAll(d, parsed, edits[..|edits| - 1]), edits[|edits| - 1]);
    }
  }

  /**
   A row whose e-mail is ill-formed passes the gate exactly when required fields are filled and it was
   edited after the parse and after the last edit of the e-mail.
   */
  lemma GateMissesFormat(d: Decoders, parsed: Participant, edits: seq<Edit>)
    requires FullyChecked(parsed) && !ValidEmail(EmailAfter(d, parsed.email, edits))
    ensures EditAll(d, parsed, edits).errors == [] <==>
              && EmailAfter(d, parsed.email, edits) != "" && NameAfter(parsed.name, edits) != ""
              && edits != [] && !EmailEditedLast(edits)
  {
    TypedTextStays(d, parsed, edits);
  }

  // ----- the history of one row over a run

  function LengthAfter(n: nat, actions: seq<Action>): nat {
    if actions == [] then n
    else
      var m := LengthAfter(n, actions[..|actions| - 1]);
      if actions[|actions| - 1].Remove? && actions[|actions| - 1].index < m then m - 1 else m
  }

  /** Where the row that an action leaves at `i` stood before it, in a list of length `m`. */
  function Before(action: Action, m: nat, i: nat): nat {
    if action.Remove? && action.index < m && i >= action.index then i + 1 else i
  }

  /** Where the row that a run leaves at `i` stood at first, in a list of length `n`. */
  function Origin(n: nat, actions: seq<Action>, i: nat): nat {
    if actions == [] then i
    else
      var front := actions[..|actions| - 1];
      Origin(n, front, Before(actions[|actions| - 1], LengthAfter(n, front), i))
  }

  /** The edits that hit that row, in order. */
  function EditsOf(n: nat, actions: seq<Action>, i: nat): seq<Edit> {
    if actions == [] then []
    else
      var front, last := actions[..|actions| - 1], actions[|actions| - 1];
      EditsOf(n, front, Before(last, LengthAfter(n, front), i))
      + (if last.Update? && last.index == i then [last.edit] else [])
  }

  lemma {:induction false} LengthOfRun(d: Decoders, list: seq<Participant>, actions: seq<Action>)
    ensures |ActAll(d, list, actions)| == LengthAfter(|list|, actions)
  {
    if actions != [] {
      LengthOfRun(d, list, actions[..|actions| - 1]);
    }
  }

  lemma EditOneMore(d: Decoders, p: Participant, edits: seq<Edit>, edit: Edit)
    ensures EditAll(d, p, edits + [edit]) == Revalidated(d, EditAll(d, p, edits), edit)
  {
    assert (edits + [edit])[..|edits|] == edits;
  }

  /** Over every run the row at `i` is the row that stood at its origin, after exactly the edits that hit it. */
  lemma {:induction false} RowsHaveHistories(d: Decoders, list: seq<Participant>, actions: seq<Action>, i: nat)
    requires i < |ActAll(d, list, actions)|
    ensures Origin(|list|, actions, i) < |list|
    ensures ActAll(d, list, actions)[i]
            == EditAll(d, list[Origin(|list|, actions, i)], EditsOf(|list|, actions, i))
  {
    if actions != [] {
      var front, last := actions[..|actions| - 1], actions[|actions| - 1];
      var before := ActAll(d, list, front);
      LengthOfRun(d, list, front);
      StepHistory(d, before, last, i);
      var j := Before(last, |before|, i);
      RowsHaveHistories(d, list, front, j);
      var origin, edits := list[Origin(|list|, front, j)], EditsOf(|list|, front, j);
      if last.Update? && last.index == i {
        EditOneMore(d, origin, edits, last.edit);
      } else {
        assert edits + [] == edits;
      }
    }
  }

  lemma StepHistory(d: Decoders, list: seq<Participant>, action: Action, i: nat)
    requires i < |Act(d, list, action)|
    ensures Before(action, |list|, i) < |list|
    ensures Act(d, list, action)[i] ==
              if action.Update? && action.index == i then Revalidated(d, list[i], action.edit)
              else list[Before(action, |list|, i)]
  {
  }

  lemma ParsedAreChecked(d: Decoders, headers: seq<string>, rows: seq<seq<string>>)
    ensures forall p :: p in Emitted(d, headers, rows) ==> FullyChecked(p)
  {
    var list := Emitted(d, headers, rows);
    var kept := Filter(rows, (r: seq<string>) => EmailOf(d, headers, r) != "");
    forall p | p in list ensures FullyChecked(p) {
      var i :| 0 <= i < |list| && list[i] == p;
      assert list[i] == ParseRow(d, headers, kept[i]);
    }
  }

  lemma ContentIsChecked(d: Decoders, content: string)
    ensures forall p :: p in ParseCsv(d, content).participants ==> FullyChecked(p)
  {
    var table := Table(content);
    if |table| >= 2 {
      ParsedAreChecked(d, Map(table[0], d.header), table[1..]);
    }
  }

  /**
   Over every run from a file: the row at `i`, when the e-mail it was left with is ill-formed, passes the gate
   exactly when required fields are filled and the last edit that hit it was of another field.
   */
  lemma GateOverRuns(d: Decoders, content: string, actions: seq<Action>, i: nat)
    requires i < |ActAll(d, ParseCsv(d, content).participants, actions)|
    ensures var parsed := ParseCsv(d, content).participants;
            var origin, edits := Origin(|parsed|, actions, i), EditsOf(|parsed|, actions, i);
            && origin < |parsed|
            && (!ValidEmail(EmailAfter(d, parsed[origin].email, edits)) ==>
                  (ActAll(d, parsed, actions)[i].errors == [] <==>
                     && EmailAfter(d, parsed[origin].email, edits) != "" && NameAfter(parsed[origin].name, edits) != ""
                     && edits != [] && !EmailEditedLast(edits)))
  {
    ContentIsChecked(d, content);
    GateOverRunsFrom(d, ParseCsv(d, content).participants, actions, i);
  }

  lemma GateOverRunsFrom(d: Decoders, parsed: seq<Participant>, actions: seq<Action>, i: nat)
    requires i < |ActAll(d, parsed, actions)| && forall p :: p in parsed ==> FullyChecked(p)
    ensures var origin, edits := Origin(|parsed|, actions, i), EditsOf(|parsed|, actions, i);
            && origin < |parsed|
            && (!ValidEmail(EmailAfter(d, parsed[origin].email, edits)) ==>
                  (ActAll(d, parsed, actions)[i].errors == [] <==>
                     && EmailAfter(d, parsed[origin].email, edits) != "" && NameAfter(parsed[origin].name, edits) != ""
                     && edits != [] && !EmailEditedLast(edits)))
  {
    RowsHaveHistories(d, parsed, actions, i);
    var origin, edits := Origin(|parsed|, actions, i), EditsOf(|parsed|, actions, i);
    if !ValidEmail(EmailAfter(d, parsed[origin].email, edits)) {
      GateMissesFormat(d, parsed[origin], edits);
    }
  }

  // ----- a file that shows it

  /** A file of two columns and one row: the header row, and the e-mail "x" with the name "n". */
  function FileText(): string {
    "email" + [','] + "name" + "\n" + ("x" + [','] + "n")
  }

  lemma FileTable()
    ensures Table(FileText()) == [["email", "name"], ["x", "n"]]
  {
    TableSplit("email" + [','] + "name", "x" + [','] + "n");
    OneLineTable("email", "name");
    OneLineTable("x", "n");
  }

  lemma OneLineTable(a: string, b: string)
    requires a in {"email", "x"} && b in {"name", "n"}
    ensures Table(a + [','] + b) == [[a, b]]
  {
    var line := a + [','] + b;
    SplitWhole(line, '\n');
    TableOfOne(line);
    TwoCells(a, b);
    TrimEmpty(line);
    assert ',' in line && !IsSpace(',');
  }

  lemma TwoCells(a: string, b: string)
    requires a in {"email", "x"} && b in {"name", "n"}
    ensures Cells(a + [','] + b) == [a, b]
  {
    RoundTrip([a, b], [false, false]);
    assert PrintLine([a, b], [false, false]) == a + [COMMA] + b;
    CleanWord(a);
    CleanWord(b);
  }

  lemma CleanWord(word: string)
    requires word in {"email", "x", "name", "n"}
    ensures Clean(word) == word
  {
    assert Trim(word) == word;
    NoQuoteToDelete(word);
  }

  lemma {:induction false} NoQuoteToDelete(word: string)
    requires QUOTE !in word
    ensures Delete(word, QUOTE) == word
  {
    if word != "" {
      NoQuoteToDelete(word[1..]);
    }
  }

  /** Decoders that leave the words of the file alone, as the program's do. */
  ghost predicate ReadsFile(d: Decoders) {
    d.header("email") == "email" && d.header("name") == "name" && d.lower("x") == "x"
  }

  lemma FileCells(headers: seq<string>, values: seq<string>)
    requires headers == ["email", "name"] && values == ["x", "n"]
    ensures Get(headers, values, "email") == Cell("x") && Get(headers, values, "name") == Cell("n")
  {
    assert headers[1..] == ["name"];
    assert "email"[0] == 'e' && "name"[0] == 'n';
    assert IndexOf(headers[1..], "name") == 0;
  }

  lemma FileRow(d: Decoders, headers: seq<string>, values: seq<string>)
    requires ReadsFile(d) && headers == ["email", "name"] && values == ["x", "n"]
    ensures ParseRow(d, headers, values).email == EmailOf(d, headers, values) == "x"
    ensures ParseRow(d, headers, values).name == "n"
  {
    FileCells(headers, values);
    assert Trim("x") == "x" && Trim("n") == "n";
  }

  lemma OneRowTable(d: Decoders, table: seq<seq<string>>, headers: seq<string>, values: seq<string>)
    requires table == [headers, values] && Map(headers, d.header) == headers && "email" in headers
    requires EmailOf(d, headers, values) != ""
    ensures ParseTable(d, table).participants == [ParseRow(d, headers, values)]
  {
    assert table[1..] == [values];
    EmittedOne(d, headers, values);
  }

  lemma FileHeaders(d: Decoders, headers: seq<string>)
    requires ReadsFile(d) && headers == ["email", "name"]
    ensures Map(headers, d.header) == headers && "email" in headers
  {
    assert headers[0] == "email";
  }

  lemma FileParticipants(d: Decoders, headers: seq<string>, values: seq<string>)
    requires ReadsFile(d) && headers == ["email", "name"] && values == ["x", "n"]
    ensures ParseCsv(d, FileText()).participants == [ParseRow(d, headers, values)]
  {
    FileTable();
    FileHeaders(d, headers);
    FileRow(d, headers, values);
    OneRowTable(d, Table(FileText()), headers, values);
  }

  lemma OneUpdate(d: Decoders, list: seq<Participant>, edit: Edit)
    requires |list| == 1
    ensures ActAll(d, list, [Update(0, edit)]) == [Revalidated(d, list[0], edit)]
  {
    var actions := [Update(0, edit)];
    assert actions[..0] == [];
    assert ActAll(d, list, actions) == Act(d, ActAll(d, list, []), actions[0]);
  }

  lemma RoleEditPasses(d: Decoders, p: Participant)
    requires p.email == "x" && p.name == "n"
    ensures Revalidated(d, p, EditRole("lead")).errors == [] && Revalidated(d, p, EditRole("lead")).email == "x"
    ensures !ValidEmail("x")
  {
    TypedText(d, p, EditRole("lead"));
  }

  /** Reachable: read that file, then edit the role of its row. It passes the gate with the e-mail "x". */
  lemma GateMissesFormatExample(d: Decoders)
    requires ReadsFile(d)
    ensures var list := ActAll(d, ParseCsv(d, FileText()).participants, [Update(0, EditRole("lead"))]);
            |list| == 1 && list[0].errors == [] && list[0].email == "x" && !ValidEmail(list[0].email)
  {
    var headers, values := ["email", "name"], ["x", "n"];
    FileParticipants(d, headers, values);
    FileRow(d, headers, values);
    OneUpdate(d, ParseCsv(d, FileText()).participants, EditRole("lead"));
    RoleEditPasses(d, ParseRow(d, headers, values));
  }
}
