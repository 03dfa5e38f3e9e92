/** Uploading the parsed participants in chunks, and paging through them. */
module BulkUpload {
  import opened Sequences
  import opened CsvDocument
  import opened Participants

  const CHUNK_SIZE: nat := 50
  const ITEMS_PER_PAGE: nat := 50
  const MAX_PARTICIPANTS: nat := 15000

  // ----- what is sent and what comes back

  datatype ApiParticipant = ApiParticipant(
    email: string,
    name: string,
    organization: Maybe<string>,
    organizationEmail: Maybe<string>,
    twitterHandler: Maybe<string>,
    linkedinHandler: Maybe<string>,
    telegramHandler: Maybe<string>,
    role: Maybe<string>,
    investmentType: Maybe<InvestmentType>,
    typicalCheckSize: Maybe<real>,
    investInStartupStages: Maybe<seq<string>>,
    secRulesAccepted: Maybe<bool>,
    makeTeamLead: bool)

  /** `toInvestorParticipantsForApi`, one participant: without the lead flag and the errors. */
  function ForApi(p: Participant): ApiParticipant {
    ApiParticipant(p.email, p.name, p.organization, p.organizationEmail, p.twitterHandler, p.linkedinHandler,
                   p.telegramHandler, p.role, p.investmentType, p.typicalCheckSize, p.investInStartupStages,
                   p.secRulesAccepted, p.makeTeamLead)
  }

  /** What can be told again from a row that was sent: its fields, and the lead flag that follows from them. */
  function Rebuilt(a: ApiParticipant): Participant {
    Participant(a.email, a.name, a.organization, a.organizationEmail, a.twitterHandler, a.linkedinHandler,
                a.telegramHandler, a.role, a.investmentType, a.typicalCheckSize, a.investInStartupStages,
                a.secRulesAccepted, a.makeTeamLead, Present(a.organization) || a.makeTeamLead, [])
  }

  /** Every field goes out under its own name. */
  lemma SentFields(p: Participant)
    ensures var a := ForApi(p);
            && a.email == p.email && a.name == p.name && a.role == p.role
            && a.organization == p.organization && a.organizationEmail == p.organizationEmail
            && a.twitterHandler == p.twitterHandler && a.linkedinHandler == p.linkedinHandler
            && a.telegramHandler == p.telegramHandler && a.investmentType == p.investmentType
            && a.typicalCheckSize == p.typicalCheckSize && a.investInStartupStages == p.investInStartupStages
            && a.secRulesAccepted == p.secRulesAccepted && a.makeTeamLead == p.makeTeamLead
  {
  }

  /** Over every run from a file, leaving out the flag and the errors loses nothing of a row that passes the gate. */
  lemma SentRowsAreComplete(d: Decoders, content: string, actions: seq<Action>, p: Participant)
    requires p in ActAll(d, ParseCsv(d, content).participants, actions) && p.errors == []
    ensures Rebuilt(ForApi(p)) == p
  {
    CleanRowsAreFilled(d, content, actions, p);
  }

  datatype Summary = Summary(total: int, createdUsers: int, updatedUsers: int, createdTeams: int,
                             updatedMemberships: int, promotedToLead: int, errors: int)

  const NOTHING := Summary(0, 0, 0, 0, 0, 0, 0)

  function Plus(a: Summary, b: Summary): Summary {
    Summary(a.total + b.total, a.createdUsers + b.createdUsers, a.updatedUsers + b.updatedUsers,
            a.createdTeams + b.createdTeams, a.updatedMemberships + b.updatedMemberships,
            a.promotedToLead + b.promotedToLead, a.errors + b.errors)
  }

  /** A response as it arrives: either part may be missing. */
  datatype Response<R> = Response(summary: Option<Summary>, rows: Option<seq<R>>)

  /** `result.summary?.… || 0`, all counters at once. */
  function SummaryOf<R>(r: Response<R>): Summary {
    match r.summary
    case None => NOTHING
    case Some(s) => s
  }

  /** `result.rows || []`. */
  function RowsOf<R>(r: Response<R>): seq<R> {
    match r.rows
    case None => []
    case Some(rows) => rows
  }

  datatype Target = TeamPitch(uid: string) | DemoDay(uid: string)

  datatype Reply<R> = Rejected | Accepted(response: Response<R>)

  /** What handling rows left behind: the state, the counters and the row results. */
  datatype Handled<S, R> = Handled(state: S, summary: Summary, rows: seq<R>)

  /** The server: how it handles one row, and what a bulk call does to its state and answers. */
  datatype Server<!S, !R> = Server(
    handle: (S, Target, ApiParticipant) -> Handled<S, R>,
    bulk: (S, Target, seq<ApiParticipant>) -> (S, Reply<R>))

  /** Rows handled one after another with the state handed on. */
  function HandleAll<S, R>(server: Server<S, R>, s: S, target: Target, rows: seq<ApiParticipant>): Handled<S, R> {
    if rows == [] then Handled(s, NOTHING, [])
    else
      var before := HandleAll(server, s, target, rows[..|rows| - 1]);
      var last := server.handle(before.state, target, rows[|rows| - 1]);
      Handled(last.state, Plus(before.summary, last.summary), before.rows + last.rows)
  }

  /** A bulk call that is accepted has handled its rows in order; one that is rejected promises nothing. */
  ghost predicate RowByRow<S(!new), R(!new)>(server: Server<S, R>) {
    forall s, target, rows :: server.bulk(s, target, rows).1.Accepted? ==>
      var response := server.bulk(s, target, rows).1.response;
      HandleAll(server, s, target, rows)
      == Handled(server.bulk(s, target, rows).0, SummaryOf(response), RowsOf(response))
  }

  // ----- chunks

  function Min(a: int, b: int): int {
    if a <= b then a else b
  }

  function Max(a: int, b: int): int {
    if a >= b then a else b
  }

  function ChunksFrom<T>(rows: seq<T>, i: nat, size: nat): seq<seq<T>>
    requires size > 0
    decreases |rows| - i
  {
    if i >= |rows| then [] else [rows[i..Min(i + size, |rows|)]] + ChunksFrom(rows, i + size, size)
  }

  method MakeChunks<T>(rows: seq<T>, size: nat) returns (chunks: seq<seq<T>>)
    requires size > 0
    ensures chunks == ChunksFrom(rows, 0, size)
  {
    chunks := [];
    var i := 0;
    while i < |rows|
      invariant chunks + ChunksFrom(rows, i, size) == ChunksFrom(rows, 0, size)
      decreases |rows| - i
    {
      chunks := chunks + [rows[i..Min(i + size, |rows|)]];
      i := i + size;
    }
  }

  /** The chunks are consecutive, none is empty or too long, and together they are the rows from `i` on. */
  lemma {:induction false} ChunksCut<T>(rows: seq<T>, i: nat, size: nat)
    requires size > 0 && i <= |rows|
    ensures Concat(ChunksFrom(rows, i, size)) == rows[i..]
    ensures forall c :: c in ChunksFrom(rows, i, size) ==> 0 < |c| <= size
    decreases |rows| - i
  {
    if i < |rows| {
      var next := Min(i + size, |rows|);
      ChunksCut(rows, next, size);
      if i + size > |rows| {
        assert ChunksFrom(rows, i + size, size) == ChunksFrom(rows, next, size) == [];
      }
      assert rows[i..] == rows[i..next] + rows[next..];
    }
  }

  lemma OneMore(k: nat, size: nat)
    requires k > 0
    ensures size + (k - 1) * size == k * size
  {
  }

  /** Chunk `k` is where it belongs: `k` chunk lengths after the start. */
  lemma {:induction false} ChunkAt<T>(rows: seq<T>, i: nat, size: nat, k: nat)
    requires size > 0 && k < |ChunksFrom(rows, i, size)|
    ensures i + k * size < |rows|
    ensures ChunksFrom(rows, i, size)[k] == rows[i + k * size..Min(i + k * size + size, |rows|)]
    decreases k
  {
    if k > 0 {
      var rest := ChunksFrom(rows, i + size, size);
      assert ChunksFrom(rows, i, size)[k] == rest[k - 1];
      ChunkAt(rows, i + size, size, k - 1);
      OneMore(k, size);
      assert i + size + (k - 1) * size == i + k * size;
    }
  }

  lemma {:induction false} ChunkCount<T>(rows: seq<T>, i: nat, size: nat)
    requires size > 0 && i < |rows|
    ensures var n := |ChunksFrom(rows, i, size)|; n > 0 && i + (n - 1) * size < |rows| <= i + n * size
    decreases |rows| - i
  {
    var n := |ChunksFrom(rows, i, size)|;
    if i + size < |rows| {
      ChunkCount(rows, i + size, size);
      assert i + size + (n - 2) * size == i + (n - 1) * size;
      assert i + size + (n - 1) * size == i + n * size;
    } else {
      assert ChunksFrom(rows, i + size, size) == [];
      assert n == 1;
      assert (n - 1) * size == 0 && n * size == size;
    }
  }

  // ----- sending

  /** What sending the chunks in order yields: the server state, and all responses unless a call was rejected. */
  function SendAll<S, R>(server: Server<S, R>, s: S, target: Target, chunks: seq<seq<ApiParticipant>>)
    : (S, Option<seq<Response<R>>>)
  {
    if chunks == [] then (s, Some([]))
    else
      var (s1, reply) := server.bulk(s, target, chunks[0]);
      if reply.Rejected? then (s1, None)
      else
        var (s2, rest) := SendAll(server, s1, target, chunks[1..]);
        (s2, if rest.None? then None else Some([reply.response] + rest.value))
  }

  function Total<R>(responses: seq<Response<R>>): Summary {
    if responses == [] then NOTHING else Plus(SummaryOf(responses[0]), Total(responses[1..]))
  }

  function AllRows<R>(responses: seq<Response<R>>): seq<R> {
    if responses == [] then [] else RowsOf(responses[0]) + AllRows(responses[1..])
  }

  lemma SplitLast<T>(a: seq<T>, b: seq<T>)
    requires b != []
    ensures (a + b)[..|a + b| - 1] == a + b[..|b| - 1] && (a + b)[|a + b| - 1] == b[|b| - 1]
  {
  }

  lemma {:induction false} HandleAppend<S, R>(server: Server<S, R>, s: S, target: Target,
                                              a: seq<ApiParticipant>, b: seq<ApiParticipant>)
    ensures var first := HandleAll(server, s, target, a);
            var second := HandleAll(server, first.state, target, b);
            HandleAll(server, s, target, a + b)
            == Handled(second.state, Plus(first.summary, second.summary), first.rows + second.rows)
    decreases |b|
  {
    if b == [] {
      assert a + b == a;
      assert HandleAll(server, s, target, a).rows + [] == HandleAll(server, s, target, a).rows;
    } else {
      var front, last := b[..|b| - 1], b[|b| - 1];
      HandleAppend(server, s, target, a, front);
      SplitLast(a, b);
    }
  }

  /** Chunking does not show: whatever the cut, accepted chunks add up to handling all rows in one go. */
  lemma {:induction false} ChunkingIsInvisible<S(!new), R(!new)>(
      server: Server<S, R>, s: S, target: Target, chunks: seq<seq<ApiParticipant>>)
    requires RowByRow(server)
    ensures var (s', responses) := SendAll(server, s, target, chunks);
            responses.Some? ==>
              HandleAll(server, s, target, Concat(chunks))
              == Handled(s', Total(responses.value), AllRows(responses.value))
    decreases |chunks|
  {
    if chunks != [] {
      var (s1, reply) := server.bulk(s, target, chunks[0]);
      if reply.Accepted? {
        ChunkingIsInvisible(server, s1, target, chunks[1..]);
        HandleAppend(server, s, target, chunks[0], Concat(chunks[1..]));
      }
    }
  }

  // ----- what adding up means

  function Sum(numbers: seq<int>): int {
    if numbers == [] then 0 else numbers[0] + Sum(numbers[1..])
  }

  // Each counter of a summary, 0 where the summary is missing.

  function TotalIn(p: Option<Summary>): int {
    if p.Some? then p.value.total else 0
  }

  function CreatedUsersIn(p: Option<Summary>): int {
    if p.Some? then p.value.createdUsers else 0
  }

  function UpdatedUsersIn(p: Option<Summary>): int {
    if p.Some? then p.value.updatedUsers else 0
  }

  function CreatedTeamsIn(p: Option<Summary>): int {
    if p.Some? then p.value.createdTeams else 0
  }

  function UpdatedMembershipsIn(p: Option<Summary>): int {
    if p.Some? then p.value.updatedMemberships else 0
  }

  function PromotedToLeadIn(p: Option<Summary>): int {
    if p.Some? then p.value.promotedToLead else 0
  }

  function ErrorsIn(p: Option<Summary>): int {
    if p.Some? then p.value.errors else 0
  }

  /** Each counter of the total is the sum of that counter over the parts. */
  ghost predicate AddsUp(total: Summary, parts: seq<Option<Summary>>) {
    && total.total == Sum(Map(parts, TotalIn))
    && total.createdUsers == Sum(Map(parts, CreatedUsersIn))
    && total.updatedUsers == Sum(Map(parts, UpdatedUsersIn))
    && total.createdTeams == Sum(Map(parts, CreatedTeamsIn))
    && total.updatedMemberships == Sum(Map(parts, UpdatedMembershipsIn))
    && total.promotedToLead == Sum(Map(parts, PromotedToLeadIn))
    && total.errors == Sum(Map(parts, ErrorsIn))
  }

  lemma SumCons<T>(first: T, parts: seq<T>, count: T -> int)
    ensures Sum(Map([first] + parts, count)) == count(first) + Sum(Map(parts, count))
  {
    assert Map([first] + parts, count) == [count(first)] + Map(parts, count);
    assert ([count(first)] + Map(parts, count))[1..] == Map(parts, count);
  }

  function Summaries<R>(responses: seq<Response<R>>): seq<Option<Summary>> {
    Map(responses, (r: Response<R>) => r.summary)
  }

  /** Summaries are added counter by counter. */
  lemma PlusAdds(a: Summary, b: Summary)
    ensures var c := Plus(a, b);
            && c.total == a.total + b.total && c.createdUsers == a.createdUsers + b.createdUsers
            && c.updatedUsers == a.updatedUsers + b.updatedUsers && c.createdTeams == a.createdTeams + b.createdTeams
            && c.updatedMemberships == a.updatedMemberships + b.updatedMemberships
            && c.promotedToLead == a.promotedToLead + b.promotedToLead && c.errors == a.errors + b.errors
  {
  }

  lemma AddsUpCons(total: Summary, first: Option<Summary>, parts: seq<Option<Summary>>)
    requires AddsUp(total, parts)
    ensures AddsUp(Plus(if first.Some? then first.value else NOTHING, total), [first] + parts)
  {
    PlusAdds(if first.Some? then first.value else NOTHING, total);
    var sum, all := Plus(if first.Some? then first.value else NOTHING, total), [first] + parts;
    assert sum.total == Sum(Map(all, TotalIn)) by { SumCons(first, parts, TotalIn); }
    assert sum.createdUsers == Sum(Map(all, CreatedUsersIn)) by { SumCons(first, parts, CreatedUsersIn); }
    assert sum.updatedUsers == Sum(Map(all, UpdatedUsersIn)) by { SumCons(first, parts, UpdatedUsersIn); }
    assert sum.createdTeams == Sum(Map(all, CreatedTeamsIn)) by { SumCons(first, parts, CreatedTeamsIn); }
    assert sum.updatedMemberships == Sum(Map(all, UpdatedMembershipsIn)) by {
      SumCons(first, parts, UpdatedMembershipsIn);
    }
    assert sum.promotedToLead == Sum(Map(all, PromotedToLeadIn)) by { SumCons(first, parts, PromotedToLeadIn); }
    assert sum.errors == Sum(Map(all, ErrorsIn)) by { SumCons(first, parts, ErrorsIn); }
  }

  /** The counters shown after an upload are the sums of the counters of its responses. */
  lemma {:induction false} TotalAddsUp<R>(responses: seq<Response<R>>)
    ensures AddsUp(Total(responses), Summaries(responses))
  {
    if responses != [] {
      TotalAddsUp(responses[1..]);
      AddsUpCons(Total(responses[1..]), responses[0].summary, Summaries(responses[1..]));
      assert Summaries(responses) == [responses[0].summary] + Summaries(responses[1..]);
    }
  }

  /** The rows shown are those of the responses, one response after the other. */
  lemma {:induction false} AllRowsAre<R>(responses: seq<Response<R>>)
    ensures AllRows(responses) == Concat(Map(responses, (r: Response<R>) => if r.rows.Some? then r.rows.value else []))
  {
    if responses != [] {
      AllRowsAre(responses[1..]);
    }
  }

  /** Row by row, what handling each one yields in the state the rows before it left. */
  function EachHandled<S, R>(server: Server<S, R>, s: S, target: Target, rows: seq<ApiParticipant>)
    : seq<Handled<S, R>>
  {
    if rows == [] then []
    else
      var first := server.handle(s, target, rows[0]);
      [first] + EachHandled(server, first.state, target, rows[1..])
  }

  lemma HandleFirst<S, R>(server: Server<S, R>, s: S, target: Target, rows: seq<ApiParticipant>)
    requires rows != []
    ensures var first := server.handle(s, target, rows[0]);
            var rest := HandleAll(server, first.state, target, rows[1..]);
            HandleAll(server, s, target, rows)
            == Handled(rest.state, Plus(first.summary, rest.summary), first.rows + rest.rows)
  {
    var first := server.handle(s, target, rows[0]);
    assert [rows[0]][..0] == [] && rows == [rows[0]] + rows[1..];
    HandleAppend(server, s, target, [rows[0]], rows[1..]);
    assert HandleAll(server, s, target, []) == Handled(s, NOTHING, []);
    assert [] + first.rows == first.rows;
  }

  function SummariesOfEach<S, R>(each: seq<Handled<S, R>>): seq<Option<Summary>> {
    if each == [] then [] else [Some(each[0].summary)] + SummariesOfEach(each[1..])
  }

  function RowsOfEach<S, R>(each: seq<Handled<S, R>>): seq<R> {
    if each == [] then [] else each[0].rows + RowsOfEach(each[1..])
  }

  lemma EachCons<S, R>(first: Handled<S, R>, each: seq<Handled<S, R>>)
    ensures SummariesOfEach([first] + each) == [Some(first.summary)] + SummariesOfEach(each)
    ensures RowsOfEach([first] + each) == first.rows + RowsOfEach(each)
  {
    assert ([first] + each)[1..] == each;
  }

  /** Handling all rows: the counters and row results of every row put together, and the last state. */
  lemma {:induction false} HandleAllAddsUp<S, R>(server: Server<S, R>, s: S, target: Target, rows: seq<ApiParticipant>)
    ensures var all, each := HandleAll(server, s, target, rows), EachHandled(server, s, target, rows);
            && AddsUp(all.summary, SummariesOfEach(each)) && all.rows == RowsOfEach(each)
            && all.state == if each == [] then s else each[|each| - 1].state
    decreases |rows|
  {
    if rows != [] {
      var first := server.handle(s, target, rows[0]);
      var each := EachHandled(server, first.state, target, rows[1..]);
      HandleFirst(server, s, target, rows);
      HandleAllAddsUp(server, first.state, target, rows[1..]);
      AddsUpCons(HandleAll(server, first.state, target, rows[1..]).summary, Some(first.summary), SummariesOfEach(each));
      EachCons(first, each);
    }
  }

  /** When a call is rejected, exactly the rows of the chunks before it have been handled. */
  lemma {:induction false} RejectedAfterPrefix<S(!new), R(!new)>(
      server: Server<S, R>, s: S, target: Target, chunks: seq<seq<ApiParticipant>>) returns (k: nat)
    requires RowByRow(server) && SendAll(server, s, target, chunks).1.None?
    ensures k < |chunks|
    ensures var before := HandleAll(server, s, target, Concat(chunks[..k])).state;
            server.bulk(before, target, chunks[k]).1.Rejected? &&
            SendAll(server, s, target, chunks).0 == server.bulk(before, target, chunks[k]).0
    decreases |chunks|
  {
    var (s1, reply) := server.bulk(s, target, chunks[0]);
    if reply.Rejected? {
      k := 0;
    } else {
      var j := RejectedAfterPrefix(server, s1, target, chunks[1..]);
      k := j + 1;
      OneChunkMore(server, s, target, chunks, j);
    }
  }

  lemma OneChunkMore<S(!new), R(!new)>(
      server: Server<S, R>, s: S, target: Target, chunks: seq<seq<ApiParticipant>>, j: nat)
    requires RowByRow(server) && j < |chunks| && server.bulk(s, target, chunks[0]).1.Accepted?
    ensures HandleAll(server, s, target, Concat(chunks[..j + 1])).state
            == HandleAll(server, server.bulk(s, target, chunks[0]).0, target, Concat(chunks[1..][..j])).state
  {
    ConcatCons(chunks, j);
    HandleAppend(server, s, target, chunks[0], Concat(chunks[1..][..j]));
  }

  lemma ConcatCons<T>(chunks: seq<seq<T>>, j: nat)
    requires j < |chunks|
    ensures Concat(chunks[..j + 1]) == chunks[0] + Concat(chunks[1..][..j])
  {
    assert chunks[..j + 1][1..] == chunks[1..][..j];
  }

  // ----- progress

  /** The processed counts shown while the chunks from row `i` on are sent. */
  function ProgressFrom(n: nat, i: nat, size: nat): seq<nat>
    requires size > 0
    decreases n - i
  {
    if i >= n then [] else [Min(i + size, n)] + ProgressFrom(n, i + size, size)
  }

  /** Progress rises strictly, one value a chunk, and ends at the row count. */
  lemma {:induction false} ProgressRises(n: nat, i: nat, size: nat)
    requires size > 0 && i < n
    ensures var shown := ProgressFrom(n, i, size);
            && shown != [] && shown[|shown| - 1] == n && Rising(shown)
            && (forall k :: 0 <= k < |shown| ==> i < shown[k])
    decreases n - i
  {
    if i + size < n {
      var rest := ProgressFrom(n, i + size, size);
      ProgressRises(n, i + size, size);
      RisingCons(i + size, rest);
    }
  }

  lemma RisingCons(first: nat, rest: seq<nat>)
    requires rest != [] && Rising(rest) && forall k :: 0 <= k < |rest| ==> first < rest[k]
    ensures Rising([first] + rest) && ([first] + rest)[|rest|] == rest[|rest| - 1]
  {
  }

  ghost predicate Rising(shown: seq<nat>) {
    forall j, k :: 0 <= j < k < |shown| ==> shown[j] < shown[k]
  }

  lemma {:induction false} ProgressAt<T>(rows: seq<T>, i: nat, size: nat, k: nat)
    requires size > 0 && k < |ChunksFrom(rows, i, size)|
    ensures |ProgressFrom(|rows|, i, size)| == |ChunksFrom(rows, i, size)|
    ensures ProgressFrom(|rows|, i, size)[k] == Min(i + k * size + size, |rows|)
    decreases |rows| - i
  {
    if i + size < |rows| {
      if k > 0 {
        ProgressAt(rows, i + size, size, k - 1);
        assert i + size + (k - 1) * size == i + k * size;
      } else {
        assert |ChunksFrom(rows, i + size, size)| > 0;
        ProgressAt(rows, i + size, size, 0);
      }
    }
  }

  // ----- the modal

  datatype UploadError = NoError | TooManyParticipants(count: nat) | RowsHaveErrors | UploadFailed

  datatype FinalResult<R> = FinalResult(summary: Summary, rows: seq<R>)

  /** Responses that came before, put in front of the rest. */
  function After<S, R>(responses: seq<Response<R>>, rest: (S, Option<seq<Response<R>>>))
    : (S, Option<seq<Response<R>>>)
  {
    (rest.0, if rest.1.None? then None else Some(responses + rest.1.value))
  }

  lemma AfterNone<S, R>(rest: (S, Option<seq<Response<R>>>))
    ensures After([], rest) == rest
  {
    if rest.1.Some? {
      assert [] + rest.1.value == rest.1.value;
    }
  }

  lemma AfterMore<S, R>(a: seq<Response<R>>, r: Response<R>, rest: (S, Option<seq<Response<R>>>))
    ensures After(a, After([r], rest)) == After(a + [r], rest)
  {
    if rest.1.Some? {
      assert a + ([r] + rest.1.value) == (a + [r]) + rest.1.value;
    }
  }

  lemma SendUnfold<S, R>(server: Server<S, R>, s: S, target: Target, chunks: seq<seq<ApiParticipant>>, i: nat)
    requires i < |chunks|
    ensures var (s1, reply) := server.bulk(s, target, chunks[i]);
            SendAll(server, s, target, chunks[i..]) ==
              if reply.Rejected? then (s1, None)
              else After([reply.response], SendAll(server, s1, target, chunks[i + 1..]))
  {
    assert chunks[i..][1..] == chunks[i + 1..];
  }

  class UploadParticipantsModal<S(!new), R(!new)> {
    const server: Server<S, R>
    const authToken: string
    const pitchUid: string
    const demoDayUid: string
    var remote: S
    var parsedParticipants: seq<Participant>
    var error: UploadError
    var parseErrors: seq<string>
    var uploadResult: Option<FinalResult<R>>
    var showResultModal: bool
    var currentPage: nat
    var isUploading: bool
    var uploadProgress: (nat, nat)

    constructor (server: Server<S, R>, remote: S, authToken: string, pitchUid: string, demoDayUid: string)
      ensures this.server == server && this.remote == remote && this.authToken == authToken
      ensures this.pitchUid == pitchUid && this.demoDayUid == demoDayUid
      ensures parsedParticipants == [] && error == NoError && uploadResult == None && !isUploading
    {
      this.server, this.remote, this.authToken := server, remote, authToken;
      this.pitchUid, this.demoDayUid := pitchUid, demoDayUid;
      parsedParticipants, error, parseErrors := [], NoError, [];
      uploadResult, showResultModal, currentPage := None, false, 1;
      isUploading, uploadProgress := false, (0, 0);
    }

    /** The pitch when there is one, else the demo day. */
    function SendTo(): (target: Target)
      ensures pitchUid != "" ==> target == TeamPitch(pitchUid)
      ensures pitchUid == "" ==> target == DemoDay(demoDayUid)
    {
      if pitchUid != "" then TeamPitch(pitchUid) else DemoDay(demoDayUid)
    }

    /** Without a session, participants or a destination the button does nothing. */
    predicate Idle()
      reads this
    {
      authToken == "" || parsedParticipants == [] || (pitchUid == "" && demoDayUid == "")
    }

    /** The gate before anything is sent. */
    function Gate(): (e: UploadError)
      reads this
      ensures |parsedParticipants| > 15000 <==> e.TooManyParticipants?
      ensures e.TooManyParticipants? ==> e.count == |parsedParticipants|
      ensures e == NoError <==> |parsedParticipants| <= 15000 && forall p :: p in parsedParticipants ==> p.errors == []
      ensures !e.UploadFailed?
    {
      if |parsedParticipants| > MAX_PARTICIPANTS then TooManyParticipants(|parsedParticipants|)
      else if exists i :: 0 <= i < |parsedParticipants| && |parsedParticipants[i].errors| > 0 then RowsHaveErrors
      else NoError
    }

    ghost function ChunksToSend(): seq<seq<ApiParticipant>>
      reads this
    {
      ChunksFrom(Map(parsedParticipants, ForApi), 0, CHUNK_SIZE)
    }

    method HandleSubmit() returns (shown: seq<nat>)
      modifies this
      ensures old(Idle()) ==> unchanged(this) && shown == []
      ensures old(Idle()) <==> authToken == "" || old(parsedParticipants) == [] || (pitchUid == "" && demoDayUid == "")
      ensures !old(Idle()) && old(Gate()) != NoError ==>
                error == old(Gate()) && shown == [] && remote == old(remote) &&
                unchanged(this`parsedParticipants, this`uploadResult, this`showResultModal, this`currentPage,
                          this`parseErrors, this`isUploading, this`uploadProgress)
      ensures !old(Idle()) && old(Gate()) == NoError ==>
                Uploaded(SendAll(server, old(remote), SendTo(), old(ChunksToSend())), |old(parsedParticipants)|, shown)
      ensures !old(Idle()) && old(Gate()) == NoError && error == NoError ==>
                var responses := SendAll(server, old(remote), SendTo(), old(ChunksToSend())).1;
                && responses.Some? && uploadResult.Some?
                && AddsUp(uploadResult.value.summary, Summaries(responses.value))
                && uploadResult.value.rows
                   == Concat(Map(responses.value, (r: Response<R>) => if r.rows.Some? then r.rows.value else []))
      ensures !old(Idle()) && old(Gate()) == NoError && error == NoError && RowByRow(server) ==>
                uploadResult.Some? &&
                HandleAll(server, old(remote), SendTo(), old(Map(parsedParticipants, ForApi)))
                == Handled(remote, uploadResult.value.summary, uploadResult.value.rows)
    {
      shown := [];
      if authToken == "" || |parsedParticipants| == 0 { return; }
      if pitchUid == "" && demoDayUid == "" { return; }
      if |parsedParticipants| > MAX_PARTICIPANTS {
        error := TooManyParticipants(|parsedParticipants|);
        return;
      }
      if exists i :: 0 <= i < |parsedParticipants| && |parsedParticipants[i].errors| > 0 {
        error := RowsHaveErrors;
        return;
      }
      shown := Upload();
      ghost var responses := SendAll(server, old(remote), SendTo(), old(ChunksToSend())).1;
      if responses.Some? {
        TotalAddsUp(responses.value);
        AllRowsAre(responses.value);
      }
      if RowByRow(server) {
        UploadEqualsWholeBatch(server, old(remote), SendTo(), old(Map(parsedParticipants, ForApi)));
      }
    }

    /** The modal after an upload: what `sent` says, and the progress shown on the way. */
    twostate predicate Uploaded(sent: (S, Option<seq<Response<R>>>), n: nat, shown: seq<nat>)
      reads this
    {
      var progress := ProgressFrom(n, 0, CHUNK_SIZE);
      && remote == sent.0 && !isUploading && uploadProgress == (0, 0)
      && (sent.1.Some? ==>
            && uploadResult == Some(FinalResult(Total(sent.1.value), AllRows(sent.1.value)))
            && showResultModal && parsedParticipants == [] && error == NoError && parseErrors == []
            && currentPage == 1 && shown == progress)
      && (sent.1.None? ==>
            && error == UploadFailed && shown <= progress && shown != []
            && unchanged(this`parsedParticipants, this`uploadResult, this`showResultModal, this`currentPage,
                         this`parseErrors))
    }

    /** The part of `handleSubmit` after the checks. */
    method Upload() returns (shown: seq<nat>)
      requires parsedParticipants != []
      modifies this
      ensures Uploaded(SendAll(server, old(remote), SendTo(), old(ChunksToSend())), |old(parsedParticipants)|, shown)
    {
      ghost var toSend := ChunksToSend();
      var participantsForAPI := Map(parsedParticipants, ForApi);
      isUploading := true;
      uploadProgress := (0, |parsedParticipants|);
      var chunks := MakeChunks(participantsForAPI, CHUNK_SIZE);
      assert chunks == toSend;
      var ok, allResults;
      ok, allResults, shown := SendChunks(chunks, participantsForAPI);
      Finish(ok, allResults);
    }

    /** The part after the loop and the `catch` and `finally` blocks. */
    method Finish(ok: bool, allResults: seq<Response<R>>)
      modifies this`uploadResult, this`showResultModal, this`parsedParticipants, this`error, this`parseErrors,
               this`currentPage, this`isUploading, this`uploadProgress
      ensures !isUploading && uploadProgress == (0, 0)
      ensures ok ==> uploadResult == Some(FinalResult(Total(allResults), AllRows(allResults)))
      ensures ok ==> showResultModal && parsedParticipants == [] && error == NoError && parseErrors == []
                     && currentPage == 1
      ensures !ok ==> error == UploadFailed && unchanged(this`parsedParticipants, this`uploadResult,
                                                         this`showResultModal, this`currentPage, this`parseErrors)
    {
      if ok {
        uploadResult := Some(FinalResult(Total(allResults), AllRows(allResults)));
        showResultModal := true;
        parsedParticipants := [];
        error := NoError;
        parseErrors := [];
        currentPage := 1;
      } else {
        error := UploadFailed;
      }
      isUploading := false;
      uploadProgress := (0, 0);
    }

    /** The sequential loop over the chunks; a rejected call leaves it early. */
    method SendChunks(chunks: seq<seq<ApiParticipant>>, rows: seq<ApiParticipant>)
      returns (ok: bool, allResults: seq<Response<R>>, shown: seq<nat>)
      requires rows != [] && chunks == ChunksFrom(rows, 0, CHUNK_SIZE)
      modifies this`remote, this`uploadProgress
      ensures SendAll(server, old(remote), SendTo(), chunks) == (remote, if ok then Some(allResults) else None)
      ensures if ok then shown == ProgressFrom(|rows|, 0, CHUNK_SIZE)
              else shown <= ProgressFrom(|rows|, 0, CHUNK_SIZE) && shown != []
      ensures shown != [] ==> uploadProgress == (shown[|shown| - 1], |rows|)
    {
      ghost var progress := ProgressFrom(|rows|, 0, CHUNK_SIZE);
      ProgressAt(rows, 0, CHUNK_SIZE, 0);
      allResults, shown := [], [];
      assert chunks[0..] == chunks;
      AfterNone(SendAll(server, remote, SendTo(), chunks));
      for i := 0 to |chunks|
        invariant shown == progress[..i]
        invariant shown != [] ==> uploadProgress == (shown[|shown| - 1], |rows|)
        invariant SendAll(server, old(remote), SendTo(), chunks)
                  == After(allResults, SendAll(server, remote, SendTo(), chunks[i..]))
      {
        var chunk := chunks[i];
        var currentProcessed := i * CHUNK_SIZE;
        var nextProcessed := Min(currentProcessed + CHUNK_SIZE, |rows|);
        ProgressAt(rows, 0, CHUNK_SIZE, i);
        TakeSnoc(progress, i);
        uploadProgress := (nextProcessed, |rows|);
        shown := shown + [nextProcessed];
        SendUnfold(server, remote, SendTo(), chunks, i);
        var (s', reply) := server.bulk(remote, SendTo(), chunk);
        remote := s';
        if reply.Rejected? {
          return false, allResults, shown;
        }
        AfterMore(allResults, reply.response, SendAll(server, s', SendTo(), chunks[i + 1..]));
        allResults := allResults + [reply.response];
      }
      TakeAll(progress, |chunks|);
      TakeAll(chunks, |chunks|);
      assert allResults + [] == allResults;
      ok := true;
    }
  }

  /** An upload that succeeds leaves the server, and reports, exactly what one call with all rows would have. */
  lemma UploadEqualsWholeBatch<S(!new), R(!new)>(server: Server<S, R>, s: S, target: Target, rows: seq<ApiParticipant>)
    requires RowByRow(server)
    ensures var (s', responses) := SendAll(server, s, target, ChunksFrom(rows, 0, CHUNK_SIZE));
            responses.Some? ==>
              HandleAll(server, s, target, rows) == Handled(s', Total(responses.value), AllRows(responses.value))
  {
    ChunksCut(rows, 0, CHUNK_SIZE);
    assert rows[0..] == rows;
    ChunkingIsInvisible(server, s, target, ChunksFrom(rows, 0, CHUNK_SIZE));
  }

  /** Every chunk but the last has 50 rows. */
  lemma ChunksOfFifty<T>(rows: seq<T>, k: nat)
    requires k < |ChunksFrom(rows, 0, CHUNK_SIZE)| - 1
    ensures |ChunksFrom(rows, 0, CHUNK_SIZE)[k]| == 50
  {
    ChunkAt(rows, 0, CHUNK_SIZE, k);
    ChunkAt(rows, 0, CHUNK_SIZE, k + 1);
  }

  // ----- pages

  function TotalPages(n: nat): nat {
    (n + ITEMS_PER_PAGE - 1) / ITEMS_PER_PAGE
  }

  /** `list.slice(startIndex, endIndex)` for a page counted from 1. */
  function PageSlice<T>(list: seq<T>, page: nat): seq<T>
    requires page >= 1
  {
    list[Min(StartIndex(page), |list|)..Min(StartIndex(page) + ITEMS_PER_PAGE, |list|)]
  }

  function StartIndex(page: nat): nat
    requires page >= 1
  {
    (page - 1) * ITEMS_PER_PAGE
  }

  function Pages<T>(list: seq<T>): seq<seq<T>> {
    seq(TotalPages(|list|), i requires 0 <= i => PageSlice(list, i + 1))
  }

  lemma PageIsChunk<T>(list: seq<T>, i: nat)
    requires i < |ChunksFrom(list, 0, ITEMS_PER_PAGE)|
    ensures ChunksFrom(list, 0, ITEMS_PER_PAGE)[i] == PageSlice(list, i + 1)
  {
    ChunkAt(list, 0, ITEMS_PER_PAGE, i);
    assert StartIndex(i + 1) == i * ITEMS_PER_PAGE;
  }

  lemma PagesAreChunks<T>(list: seq<T>)
    ensures Pages(list) == ChunksFrom(list, 0, ITEMS_PER_PAGE)
  {
    var chunks := ChunksFrom(list, 0, ITEMS_PER_PAGE);
    PageCount(list);
    forall i | 0 <= i < |chunks| ensures chunks[i] == Pages(list)[i] {
      PageIsChunk(list, i);
    }
  }

  lemma PageCount<T>(list: seq<T>)
    ensures |ChunksFrom(list, 0, ITEMS_PER_PAGE)| == TotalPages(|list|)
  {
    if list != [] {
      ChunkCount(list, 0, ITEMS_PER_PAGE);
      CeilingIs(|list|, |ChunksFrom(list, 0, ITEMS_PER_PAGE)|);
    }
  }

  lemma CeilingIs(size: nat, pages: nat)
    requires pages > 0 && (pages - 1) * ITEMS_PER_PAGE < size <= pages * ITEMS_PER_PAGE
    ensures TotalPages(size) == pages
  {
  }

  /** The pages, first to last, are the whole list. */
  lemma PagesCoverList<T>(list: seq<T>)
    ensures Concat(Pages(list)) == list
    ensures forall page :: page in Pages(list) ==> 0 < |page| <= ITEMS_PER_PAGE
  {
    PagesAreChunks(list);
    ChunksCut(list, 0, ITEMS_PER_PAGE);
    assert list[0..] == list;
  }

  /** Every page but the last shows 50 rows. */
  lemma PagesOfFifty<T>(list: seq<T>, k: nat)
    requires k < |Pages(list)| - 1
    ensures |Pages(list)[k]| == 50
  {
    PagesAreChunks(list);
    ChunkAt(list, 0, ITEMS_PER_PAGE, k);
    ChunkAt(list, 0, ITEMS_PER_PAGE, k + 1);
  }

  /** The page buttons shown around the current page. */
  function PageNumbers(totalPages: nat, currentPage: nat): seq<int> {
    seq(Min(5, totalPages), i => Max(1, Min(totalPages - 4, currentPage - 2)) + i)
  }

  /** Consecutive existing pages, five or all of them, the current one in the middle unless it is near an end. */
  lemma WindowFits(totalPages: nat, currentPage: nat)
    requires 1 <= currentPage <= totalPages
    ensures var window := PageNumbers(totalPages, currentPage);
            && |window| == Min(5, totalPages)
            && (forall i :: 0 <= i < |window| ==> 1 <= window[i] <= totalPages)
            && (forall i :: 0 <= i < |window| - 1 ==> window[i + 1] == window[i] + 1)
            && currentPage in window
            && window[0] == (if currentPage <= 3 || totalPages <= 5 then 1
                             else if currentPage >= totalPages - 2 then totalPages - 4
                             else currentPage - 2)
  {
    var window := PageNumbers(totalPages, currentPage);
    var first := Max(1, Min(totalPages - 4, currentPage - 2));
    assert window[currentPage - first] == currentPage;
  }

  // ----- the index a table row passes on

  lemma LeadEdit(d: Decoders, p: Participant, lead: bool)
    ensures Revalidated(d, p, EditMakeTeamLead(lead)).makeTeamLead == lead
  {
  }

  /** The edit leaves the row at this place as it is. */
  ghost predicate Ineffective(d: Decoders, list: seq<Participant>, i: nat, edit: Edit)
    requires i < |list|
  {
    Revalidated(d, list[i], edit) == list[i]
  }

  /** One edit does the same at two different places exactly when it changes neither row. */
  lemma EditAgrees(d: Decoders, list: seq<Participant>, i: nat, j: nat, edit: Edit)
    requires i < |list| && j < |list|
    ensures UpdateParticipant(d, list, i, edit) == UpdateParticipant(d, list, j, edit) <==>
              i == j || (Ineffective(d, list, i, edit) && Ineffective(d, list, j, edit))
  {
    var a, b := UpdateParticipant(d, list, i, edit), UpdateParticipant(d, list, j, edit);
    if i != j {
      assert a[j] == list[j] && b[j] == Revalidated(d, list[j], edit);
      assert b[i] == list[i] && a[i] == Revalidated(d, list[i], edit);
    }
  }

  /** Some edit changes the row. */
  lemma LeadEditChanges(d: Decoders, list: seq<Participant>, i: nat)
    requires i < |list|
    ensures !Ineffective(d, list, i, EditMakeTeamLead(!list[i].makeTeamLead))
  {
    LeadEdit(d, list[i], !list[i].makeTeamLead);
  }

  lemma ShownIndex<T>(list: seq<T>, page: nat, place: nat)
    requires page >= 1 && place < |PageSlice(list, page)|
    ensures StartIndex(page) + place < |list| && PageSlice(list, page)[place] == list[StartIndex(page) + place]
    ensures StartIndex(page) == 0 <==> page == 1
  {
  }

  /**
   The table passes a row's place on its page: on the first page an edit reaches the row it was typed into;
   on any other page it does so only when it changes neither that row nor the row at the place it goes to,
   and some edits do change the row.
   */
  lemma EditReachesShownRow(d: Decoders, list: seq<Participant>, page: nat, place: nat, edit: Edit)
    requires page >= 1 && place < |PageSlice(list, page)|
    ensures var shown := StartIndex(page) + place;
            && shown < |list| && PageSlice(list, page)[place] == list[shown]
            && (UpdateParticipant(d, list, place, edit) == UpdateParticipant(d, list, shown, edit) <==>
                  page == 1 || (Ineffective(d, list, place, edit) && Ineffective(d, list, shown, edit)))
            && !Ineffective(d, list, shown, EditMakeTeamLead(!list[shown].makeTeamLead))
  {
    ShownIndex(list, page, place);
    var shown := StartIndex(page) + place;
    assert shown == place <==> page == 1;
    EditAgrees(d, list, place, shown, edit);
    LeadEditChanges(d, list, shown);
  }

  /** Two rows, and a list with the second one alone on its second page. */
  const FIRST := Participant("a@b.c", "a", Undefined, Undefined, Undefined, Undefined, Undefined, Undefined, Undefined,
                             Undefined, Undefined, Undefined, true, true, [])
  const SECOND := FIRST.(email := "b@b.c", name := "b")

  function FiftyOne(): (list: seq<Participant>)
    ensures |list| == 51
    ensures forall i :: 0 <= i < 50 ==> list[i] == FIRST
    ensures list[50] == SECOND
  {
    seq(50, _ => FIRST) + [SECOND]
  }

  /** On page 2 the row shown first is the 51st; taking its lead mark away changes the first row instead. */
  lemma EditMissesShownRow(d: Decoders)
    ensures |PageSlice(FiftyOne(), 2)| == 1 && PageSlice(FiftyOne(), 2)[0] == SECOND
    ensures var after := UpdateParticipant(d, FiftyOne(), 0, EditMakeTeamLead(false));
            after[50] == SECOND && after[50].makeTeamLead && after[0] != FIRST
  {
    LeadEdit(d, FIRST, false);
    assert StartIndex(2) == 50;
  }

  /** All rows from the one place to the other are equal. */
  ghost predicate EqualRows(list: seq<Participant>, i: nat, j: nat)
    requires i <= j < |list|
  {
    forall k :: i <= k <= j ==> list[k] == list[i]
  }

  /** Removing at one of two places is the same exactly when all rows from the one to the other are equal. */
  lemma RemovalsAgree(list: seq<Participant>, i: nat, j: nat)
    requires i <= j < |list|
    ensures RemoveParticipant(list, i) == RemoveParticipant(list, j) <==> EqualRows(list, i, j)
  {
    var a, b := RemoveParticipant(list, i), RemoveParticipant(list, j);
    assert forall k :: i <= k < j ==> a[k] == list[k + 1] && b[k] == list[k];
    if a == b {
      RunOfEqualRows(list, i, j);
    }
    if EqualRows(list, i, j) {
      assert forall k :: 0 <= k < |a| ==> a[k] == b[k];
    }
  }

  lemma {:induction false} RunOfEqualRows(list: seq<Participant>, i: nat, j: nat)
    requires i <= j < |list| && forall k :: i <= k < j ==> list[k + 1] == list[k]
    ensures EqualRows(list, i, j)
  {
    if i < j {
      RunOfEqualRows(list, i, j - 1);
      assert list[j - 1 + 1] == list[j - 1];
    }
  }

  lemma EqualDifferentRows(list: seq<Participant>, i: nat, j: nat)
    requires i <= j < |list| && NoRepeats(list)
    ensures EqualRows(list, i, j) <==> i == j
  {
    if i < j {
      assert list[i] != list[j];
    }
  }

  /** Removal passes the same place on: with different rows it too removes the row shown only on the first page. */
  lemma RemovalReachesShownRow(list: seq<Participant>, page: nat, place: nat, shown: nat)
    requires page >= 1 && place < |PageSlice(list, page)| && shown == StartIndex(page) + place
    ensures shown < |list|
    ensures RemoveParticipant(list, place) == RemoveParticipant(list, shown) <==> EqualRows(list, place, shown)
    ensures NoRepeats(list) ==> (RemoveParticipant(list, place) == RemoveParticipant(list, shown) <==> page == 1)
  {
    ShownIndex(list, page, place);
    assert shown == place <==> page == 1;
    RemovalsAgree(list, place, shown);
    if NoRepeats(list) {
      EqualDifferentRows(list, place, shown);
    }
  }
}
