/** The browser-side listing query of lib/supabase-browser.ts: try each
    candidate table in turn, skip the ones that do not exist, and fall back to
    the built-in records when no table answers or a query fails. The database
    is the parameter `respond`, the answer each table gives to this query;
    the built-in records are `mock` and `Date.parse` is `parse`. */
module SupabaseBrowser {
  import opened Wrappers
  import opened Strings
  import opened Types
  import opened ShowcaseData

  /** `getClient()` finds a client exactly when both the project URL and the
      anonymous key are set and not empty. */
  function HasClient(url: Option<string>, anonKey: Option<string>): (b: bool)
    ensures b <==> url.GetOr("") != "" && anonKey.GetOr("") != ""
  {
    url.Some? && url.value != "" && anonKey.Some? && anonKey.value != ""
  }

  /** The fields of a PostgREST error that the site reads. */
  datatype PostgrestError = PostgrestError(code: string, message: Option<string>, details: Option<string>)

  /** The error codes that mean the table is missing. */
  const MissingRelationCodes: set<string> := {"42P01", "PGRST205", "PGRST301"}

  /** `` `${message ?? ''} ${details ?? ''}`.toLowerCase() ``. */
  function ErrorText(e: PostgrestError): string {
    Lower(e.message.GetOr("") + " " + e.details.GetOr(""))
  }

  /** `isMissingRelationError(error)`: no error is no missing table; one of the
      three codes is; otherwise the lowered message and details must mention
      that something does not exist or that the table could not be found. */
  function IsMissingRelationError(error: Option<PostgrestError>): (r: bool)
    ensures error.None? ==> !r
    ensures error.Some? && error.value.code in MissingRelationCodes ==> r
  {
    match error
    case None => false
    case Some(e) =>
      if e.code == "42P01" || e.code == "PGRST205" || e.code == "PGRST301" then true
      else
        var text := ErrorText(e);
        Contains(text, "does not exist") || Contains(text, "could not find the table")
  }

  /** For any other code the decision rests on the text alone: the lowered
      message and details contain one of the two phrases. */
  lemma MissingRelationText(e: PostgrestError)
    requires e.code !in MissingRelationCodes
    ensures IsMissingRelationError(Some(e)) <==>
              (exists k :: OccursAt(ErrorText(e), "does not exist", k)) ||
              (exists k :: OccursAt(ErrorText(e), "could not find the table", k))
  {
    ContainsAt(ErrorText(e), "does not exist");
    ContainsAt(ErrorText(e), "could not find the table");
  }

  /** An occurrence in a part of a text is an occurrence in the lowered text,
      shifted by what comes before the part. */
  lemma LowerOccursShift(pre: string, s: string, post: string, sub: string, k: int)
    requires OccursAt(Lower(s), sub, k)
    ensures OccursAt(Lower(pre + s + post), sub, |pre| + k)
  {
    var t := Lower(pre + s + post);
    forall i | 0 <= i < |sub| ensures t[|pre| + k + i] == sub[i] {
      assert (pre + s + post)[|pre| + k + i] == s[k + i];
      assert Lower(s)[k..k + |sub|][i] == sub[i];
    }
    assert t[|pre| + k..|pre| + k + |sub|] == sub;
  }

  /** Whatever the code, an error whose message or details mention, in any
      letter case, that the table could not be found or that something does
      not exist is a missing table. */
  lemma MentionedMissing(e: PostgrestError, phrase: string, k: int)
    requires phrase == "does not exist" || phrase == "could not find the table"
    requires OccursAt(Lower(e.message.GetOr("")), phrase, k) || OccursAt(Lower(e.details.GetOr("")), phrase, k)
    ensures IsMissingRelationError(Some(e))
  {
    var m, d := e.message.GetOr(""), e.details.GetOr("");
    if e.code !in MissingRelationCodes {
      MissingRelationText(e);
    }
    if OccursAt(Lower(m), phrase, k) {
      LowerOccursShift([], m, " " + d, phrase, k);
      assert [] + m + (" " + d) == m + " " + d;
    } else {
      LowerOccursShift(m + " ", d, [], phrase, k);
      assert m + " " + d + [] == m + " " + d;
    }
  }

  /** What one table answered: rows, an error, or neither. */
  datatype TableResponse = TableResponse(data: Option<seq<ShowcaseRecord>>, error: Option<PostgrestError>)

  /** The loop goes on to the next table: the table is missing, or it gave
      neither rows nor an error. */
  predicate MovesOn(resp: TableResponse) {
    if resp.error.Some? then IsMissingRelationError(resp.error) else resp.data.None?
  }

  /** The position of the first table that does not send the loop on, or
      `|candidates|` when every table does. */
  function FirstAnswer(candidates: seq<string>, respond: string -> TableResponse): (k: nat)
    ensures k <= |candidates|
    ensures forall i :: 0 <= i < k ==> MovesOn(respond(candidates[i]))
    ensures k < |candidates| ==> !MovesOn(respond(candidates[k]))
  {
    if candidates == [] then 0
    else if !MovesOn(respond(candidates[0])) then 0
    else
      var k := FirstAnswer(candidates[1..], respond);
      assert forall i :: 1 <= i < |candidates| ==> candidates[i] == candidates[1..][i - 1];
      1 + k
  }

  /** The loop stops at `i` exactly when every earlier table sent it on and
      the table at `i`, if any, does not. */
  lemma FirstAnswerAt(candidates: seq<string>, respond: string -> TableResponse, i: nat)
    requires i <= |candidates|
    requires forall j :: 0 <= j < i ==> MovesOn(respond(candidates[j]))
    requires i < |candidates| ==> !MovesOn(respond(candidates[i]))
    ensures FirstAnswer(candidates, respond) == i
  {
  }

  /** `applyFallbackFilters(getSortedMockShowcases(), filters)`. */
  function BrowserFallback(parse: string -> Option<int>, mock: seq<ShowcaseRecord>, filters: ShowcaseFilters): (r: seq<ShowcaseRecord>)
    ensures multiset(r) <= multiset(mock)
  {
    var r := ApplyFallbackFilters(parse, SortShowcasesByRecency(parse, mock, Latest), filters);
    assert multiset(r) <= multiset(SortShowcasesByRecency(parse, mock, Latest));
    r
  }

  /** What the browser query returns once a client exists: the rows of the
      first table that answers with rows, sorted newest first; the built-in
      fallback when that table answers with an error or no table answers. */
  function ClientResult(parse: string -> Option<int>, mock: seq<ShowcaseRecord>, candidates: seq<string>,
                        filters: ShowcaseFilters, respond: string -> TableResponse): (r: seq<ShowcaseRecord>)
    ensures var k := FirstAnswer(candidates, respond);
            k == |candidates| || respond(candidates[k]).error.Some? ==> r == BrowserFallback(parse, mock, filters)
    ensures var k := FirstAnswer(candidates, respond);
            k < |candidates| && respond(candidates[k]).error.None? ==>
              && respond(candidates[k]).data.Some?
              && multiset(r) == multiset(respond(candidates[k]).data.value)
  {
    var k := FirstAnswer(candidates, respond);
    if k == |candidates| then BrowserFallback(parse, mock, filters)
    else
      var resp := respond(candidates[k]);
      if resp.error.Some? then BrowserFallback(parse, mock, filters)
      else SortShowcasesByRecency(parse, resp.data.value, Latest)
  }

  /** `fetchShowcasesClient(filters)`, returning also how many tables were
      queried; `candidates` is `SHOWCASE_TABLE_CANDIDATES`, which the site
      computes once as `TableCandidates` of the configured table, and `url`
      and `anonKey` are the two public environment variables. */
  method FetchShowcasesClient(url: Option<string>, anonKey: Option<string>, parse: string -> Option<int>, mock: seq<ShowcaseRecord>,
                              candidates: seq<string>, filters: ShowcaseFilters,
                              respond: string -> TableResponse)
    returns (r: seq<ShowcaseRecord>, tried: nat)
    ensures !HasClient(url, anonKey) ==> tried == 0 && r == BrowserFallback(parse, mock, filters)
    ensures var k := FirstAnswer(candidates, respond);
            HasClient(url, anonKey) ==>
              r == ClientResult(parse, mock, candidates, filters, respond) &&
              tried == (if k < |candidates| then k + 1 else k)
  {
    if !HasClient(url, anonKey) {
      return BrowserFallback(parse, mock, filters), 0;
    }
    var i := 0;
    while i < |candidates|
      invariant 0 <= i <= |candidates|
      invariant i <= FirstAnswer(candidates, respond)
    {
      var resp := respond(candidates[i]);
      if resp.error.Some? {
        if IsMissingRelationError(resp.error) {
          i := i + 1;
          continue;
        }
        return BrowserFallback(parse, mock, filters), i + 1;
      }
      if resp.data.Some? {
        return SortShowcasesByRecency(parse, resp.data.value, Latest), i + 1;
      }
      i := i + 1;
    }
    return BrowserFallback(parse, mock, filters), |candidates|;
  }

  /** Rows from a table come back newest first, whatever order the filters
      ask for: the requested order only reaches the fallback. */
  lemma ClientRowsNewestFirst(parse: string -> Option<int>, mock: seq<ShowcaseRecord>, candidates: seq<string>,
                              filters: ShowcaseFilters, respond: string -> TableResponse)
    requires var k := FirstAnswer(candidates, respond);
             k < |candidates| && respond(candidates[k]).error.None? &&
             AllTimed(parse, respond(candidates[k]).data.GetOr([]))
    ensures var r := ClientResult(parse, mock, candidates, filters, respond);
            forall i, j :: 0 <= i < j < |r| ==> InRecencyOrder(parse, Latest, r[i], r[j])
  {
    var k := FirstAnswer(candidates, respond);
    SortedByRecency(parse, respond(candidates[k]).data.value, Latest);
  }

  /** Whenever the fallback is used its records match every active filter. */
  lemma ClientFallbackMatches(parse: string -> Option<int>, mock: seq<ShowcaseRecord>, candidates: seq<string>,
                              filters: ShowcaseFilters, respond: string -> TableResponse)
    requires var k := FirstAnswer(candidates, respond);
             k == |candidates| || respond(candidates[k]).error.Some?
    ensures var r := ClientResult(parse, mock, candidates, filters, respond);
            forall i :: 0 <= i < |r| ==> Matches(CriteriaOf(filters), r[i])
  {
    FallbackMatches(parse, SortShowcasesByRecency(parse, mock, Latest), filters);
  }
}
