/** The SQL console: running a query records it in a bounded most-recent-first
    history, and its result can be exported as CSV. */
module QueryConsole {
  import opened Common
  import opened Text
  import Csv

  /** Most entries the history keeps. */
  const HistoryLimit: nat := 10

  /** A successful result as the console shows it. */
  datatype QueryResult = QueryResult(
    columns: seq<string>,
    rows: seq<Csv.Row>,
    rowCount: nat,
    executionTime: int)

  /** What the database answers to a query: the field names it reports (which
      may be missing) and the rows, or an error. */
  datatype QueryOutcome =
    | Answered(fields: Option<seq<string>>, rows: seq<Csv.Row>)
    | Failed(message: string)

  /** The test that keeps every history entry other than `query`. */
  function Other(query: string): (keep: string -> bool)
    ensures forall q :: keep(q) <==> q != query
  {
    q => q != query
  }

  /** The history after `query` ran successfully: the query moves to the front,
      its other occurrences are dropped, and the list is cut to the limit. */
  function PushHistory(history: seq<string>, query: string): (r: seq<string>)
    ensures 1 <= |r| <= HistoryLimit
    ensures r[0] == query && query !in r[1..] && Count(r, query) == 1
    ensures IsSubsequence(r[1..], history)
    ensures r <= [query] + Filter(history, Other(query))
    ensures |r| == if 1 + |Filter(history, Other(query))| <= HistoryLimit
                   then 1 + |Filter(history, Other(query))| else HistoryLimit
  {
    var others := Filter(history, Other(query));
    var moved := [query] + others;
    var r := if |moved| <= HistoryLimit then moved else moved[..HistoryLimit];
    assert r[1..] == others[..|r| - 1];
    SubsequencePrefix(others, history, |r| - 1);
    assert query !in r[1..];
    CountAbsent(r[1..], query);
    assert Count(r, query) == 1 + Count(r[1..], query);
    r
  }

  /** Nothing is lost unless the limit forces it: when fewer than `HistoryLimit`
      other queries are remembered, every earlier entry is still there. */
  lemma PushHistoryKeepsEntries(history: seq<string>, query: string)
    requires |Filter(history, Other(query))| < HistoryLimit
    ensures forall i :: 0 <= i < |history| ==> history[i] in PushHistory(history, query)
  {
    var others := Filter(history, Other(query));
    var r := PushHistory(history, query);
    assert r == [query] + others;
    forall i | 0 <= i < |history| ensures history[i] in r {
      if history[i] != query {
        assert history[i] in others;
      }
    }
  }

  /** Re-running the query at the front of a history that holds it once and is
      within the limit leaves the history as it was. */
  lemma PushHistoryAtFront(history: seq<string>, query: string)
    requires 1 <= |history| <= HistoryLimit
    requires history[0] == query && query !in history[1..]
    ensures PushHistory(history, query) == history
  {
    var keep := Other(query);
    assert forall i :: 0 <= i < |history[1..]| ==> keep(history[1..][i]);
    FilterKeepsAll(history[1..], keep);
    assert Filter(history, keep) == Filter(history[1..], keep);
    assert [query] + history[1..] == history;
  }

  /** Running the same query twice in a row is the same as running it once. */
  lemma PushHistoryIdempotent(history: seq<string>, query: string)
    ensures PushHistory(PushHistory(history, query), query) == PushHistory(history, query)
  {
    PushHistoryAtFront(PushHistory(history, query), query);
  }

  /** A history without duplicates stays without duplicates. */
  lemma PushHistoryDistinct(history: seq<string>, query: string)
    requires Distinct(history)
    ensures Distinct(PushHistory(history, query))
  {
    var keep := Other(query);
    FilterDistinct(history, keep);
    var others := Filter(history, keep);
    var moved := [query] + others;
    forall i, j | 0 <= i < j < |moved| ensures moved[i] != moved[j] {
      if i == 0 {
        assert moved[j] == others[j - 1];
      } else {
        assert moved[i] == others[i - 1] && moved[j] == others[j - 1];
      }
    }
  }

  /** The result the console keeps after a successful query; a missing field
      list counts as no columns. */
  function ResultOf(fields: Option<seq<string>>, rows: seq<Csv.Row>, elapsed: int): (r: QueryResult)
    ensures r.rowCount == |r.rows| && r.rows == rows
    ensures r.columns == if fields.Some? then fields.value else []
  {
    QueryResult(fields.GetOr([]), rows, |rows|, elapsed)
  }

  /** The CSV text offered for download; nothing without a result. */
  function Download(result: Option<QueryResult>): (csv: Option<string>)
    ensures result.None? <==> csv.None?
    ensures result.Some? ==> csv.value == Csv.Document(result.value.columns, result.value.rows)
  {
    match result
    case None => None
    case Some(r) => Some(Csv.Document(r.columns, r.rows))
  }

  /** The console's state. */
  class Console {
    var query: string
    var result: Option<QueryResult>
    var loading: bool
    var history: seq<string>

    /** A fresh console; `saved` is the history found in local storage, if any. */
    constructor (saved: Option<seq<string>>)
      ensures query == "" && result == None && !loading
      ensures history == saved.GetOr([])
    {
      query := "";
      result := None;
      loading := false;
      history := saved.GetOr([]);
    }

    /** The text area's change handler. */
    method SetQuery(text: string)
      modifies this
      ensures query == text
      ensures result == old(result) && loading == old(loading) && history == old(history)
    {
      query := text;
    }

    /** `executeQuery`: `hasDb` says whether a database is available, `outcome`
        is the database's answer and `elapsed` the measured time. `issued` says
        whether the query was sent; `loadingDuringCall` is the loading flag
        while the query is in flight. */
    method ExecuteQuery(hasDb: bool, outcome: QueryOutcome, elapsed: int)
      returns (issued: bool, loadingDuringCall: bool)
      modifies this
      ensures issued <==> hasDb && !IsBlank(query)
      ensures query == old(query)
      ensures !issued ==> result == old(result) && history == old(history) && loading == old(loading)
      ensures issued ==> loadingDuringCall && !loading
      ensures issued && outcome.Answered? ==>
        result == Some(ResultOf(outcome.fields, outcome.rows, elapsed)) &&
        history == PushHistory(old(history), query)
      ensures issued && outcome.Failed? ==> result == None && history == old(history)
    {
      var blank := IsBlank(query);
      if !hasDb || blank {
        return false, loading;
      }
      issued := true;
      loading := true;
      loadingDuringCall := loading;
      match outcome {
        case Answered(fields, rows) =>
          result := Some(ResultOf(fields, rows, elapsed));
          history := PushHistory(history, query);
        case Failed(_) =>
          result := None;
      }
      loading := false;
    }
  }
}
