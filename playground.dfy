/**
 * The SQL playground page's state: the current query, the results of the last
 * run, the loading and error flags, and the query history, a most-recent-first
 * list of at most ten distinct queries.  Running a query shows fixed mock data
 * whatever the query says.
 */
module Playground {

  import opened Options

  /** One row of the mock result table. */
  datatype Product = Product(productName: string, category: string, price: int, inventory: int, sales: int)

  datatype QueryResult = QueryResult(columns: seq<string>, rows: seq<Product>)

  /** The bar chart shown beside the results: one bar per row, labelled with the
      product name, of height its sales. */
  datatype ChartConfig = BarChart(labels: seq<string>, data: seq<int>, title: string)

  const HistoryLimit := 10

  const InitialQuery := "SELECT product_name, sales FROM products\nORDER BY sales DESC\nLIMIT 10;"

  const MockData := QueryResult(
    ["product_name", "category", "price", "inventory", "sales"],
    [ Product("Laptop Pro", "Electronics", 1299, 45, 156),
      Product("Phone X", "Electronics", 999, 82, 342),
      Product("Coffee Maker", "Home", 89, 112, 74),
      Product("Desk Lamp", "Home", 29, 45, 51),
      Product("Headphones", "Electronics", 129, 89, 127),
      Product("Water Bottle", "Sports", 25, 233, 187),
      Product("Running Shoes", "Sports", 119, 76, 92),
      Product("Toaster", "Home", 49, 36, 32),
      Product("Tablet Mini", "Electronics", 499, 64, 89),
      Product("Protein Powder", "Sports", 59, 121, 104) ])

  /** The chart built from a result table. */
  function ChartOf(result: QueryResult): (c: ChartConfig)
    ensures |c.labels| == |c.data| == |result.rows|
    ensures forall i :: 0 <= i < |result.rows| ==>
      c.labels[i] == result.rows[i].productName && c.data[i] == result.rows[i].sales
    ensures c.title == "Product Sales"
  {
    BarChart(seq(|result.rows|, i requires 0 <= i < |result.rows| => result.rows[i].productName),
             seq(|result.rows|, i requires 0 <= i < |result.rows| => result.rows[i].sales),
             "Product Sales")
  }

  const MockChartConfig := ChartOf(MockData)

  /** The chart shown after a run: the ten product names as labels and their
      sales as bar heights, in the table's order. */
  lemma MockChartValues()
    ensures MockChartConfig.labels == ["Laptop Pro", "Phone X", "Coffee Maker", "Desk Lamp", "Headphones",
      "Water Bottle", "Running Shoes", "Toaster", "Tablet Mini", "Protein Powder"]
    ensures MockChartConfig.data == [156, 342, 74, 51, 127, 187, 92, 32, 89, 104]
    ensures MockChartConfig.title == "Product Sales"
  {
  }

  /** `s.slice(0, n)` for a natural n. */
  function Take<T>(s: seq<T>, n: nat): (r: seq<T>)
    ensures |r| == if n < |s| then n else |s|
    ensures forall i :: 0 <= i < |r| ==> r[i] == s[i]
  {
    if n < |s| then s[..n] else s
  }

  predicate Distinct<T(==)>(s: seq<T>) {
    forall i, j :: 0 <= i < j < |s| ==> s[i] != s[j]
  }

  /** The history after a run of q: unchanged when q is already held, otherwise
      q prepended and the list cut back to its limit. */
  function AddToHistory(history: seq<string>, q: string): seq<string> {
    if q in history then history else Take([q] + history, HistoryLimit)
  }

  /** The history never grows past its limit. */
  lemma HistoryBounded(history: seq<string>, q: string)
    requires |history| <= HistoryLimit
    ensures |AddToHistory(history, q)| <= HistoryLimit
  {
  }

  /** A query already in the history leaves it exactly as it was: it is not
      moved to the front. */
  lemma ExistingQueryLeavesHistory(history: seq<string>, q: string)
    ensures q in history ==> AddToHistory(history, q) == history
  {
  }

  /** A new query goes to index 0, and the previous entries follow in their
      order, as many of them as fit. */
  lemma NewQueryGoesFirst(history: seq<string>, q: string)
    requires q !in history && |history| <= HistoryLimit
    ensures AddToHistory(history, q)[0] == q
    ensures AddToHistory(history, q)[1..] == if |history| < HistoryLimit then history else history[..HistoryLimit - 1]
  {
    var r := AddToHistory(history, q);
    if |history| < HistoryLimit {
      assert r == [q] + history;
    } else {
      assert r == ([q] + history)[..HistoryLimit];
      assert r[1..] == history[..HistoryLimit - 1];
    }
  }

  /** With ten entries held, a new query drops the last, oldest, one. */
  lemma FullHistoryDropsOldest(history: seq<string>, q: string)
    requires q !in history && |history| == HistoryLimit && Distinct(history)
    ensures |AddToHistory(history, q)| == HistoryLimit
    ensures history[HistoryLimit - 1] !in AddToHistory(history, q)
    ensures forall i :: 0 <= i < HistoryLimit - 1 ==> history[i] in AddToHistory(history, q)
  {
    var r := AddToHistory(history, q);
    NewQueryGoesFirst(history, q);
    assert r == [q] + history[..HistoryLimit - 1];
    forall i | 0 <= i < HistoryLimit - 1 ensures history[i] in r {
      assert r[i + 1] == history[i];
    }
    forall k | 0 <= k < |r| ensures r[k] != history[HistoryLimit - 1] {
      if k > 0 {
        assert r[k] == history[k - 1];
      }
    }
  }

  /** The history holds no duplicates, and after a run the query is in it. */
  lemma {:induction false} AddKeepsDistinct(history: seq<string>, q: string)
    requires Distinct(history)
    ensures Distinct(AddToHistory(history, q))
    ensures q in AddToHistory(history, q)
  {
    if q !in history {
      var r := Take([q] + history, HistoryLimit);
      assert r[0] == q;
      forall i, j | 0 <= i < j < |r| ensures r[i] != r[j] {
        if i == 0 {
          assert r[j] == history[j - 1];
        } else {
          assert r[i] == history[i - 1] && r[j] == history[j - 1];
        }
      }
    }
  }

  /** Every entry of the history is a query that was run. */
  lemma AddOnlyRecordsRuns(history: seq<string>, q: string, x: string)
    ensures x in AddToHistory(history, q) ==> x == q || x in history
  {
    if x in AddToHistory(history, q) && q !in history {
      var r := Take([q] + history, HistoryLimit);
      var k :| 0 <= k < |r| && r[k] == x;
      assert r[k] == ([q] + history)[k];
    }
  }

  /** The history after running the queries of `runs` in order from an empty one. */
  function HistoryAfter(runs: seq<string>): seq<string> {
    if runs == [] then [] else AddToHistory(HistoryAfter(runs[..|runs| - 1]), runs[|runs| - 1])
  }

  /** Over any sequence of runs the history stays within ten distinct entries,
      each of them a query that was run, and the last query run is in it. */
  lemma {:induction false} HistoryAfterInvariant(runs: seq<string>)
    ensures |HistoryAfter(runs)| <= HistoryLimit
    ensures Distinct(HistoryAfter(runs))
    ensures forall x :: x in HistoryAfter(runs) ==> x in runs
    ensures runs != [] ==> runs[|runs| - 1] in HistoryAfter(runs)
  {
    if runs != [] {
      var prefix := runs[..|runs| - 1];
      var q := runs[|runs| - 1];
      HistoryAfterInvariant(prefix);
      HistoryBounded(HistoryAfter(prefix), q);
      AddKeepsDistinct(HistoryAfter(prefix), q);
      forall x | x in HistoryAfter(runs) ensures x in runs {
        AddOnlyRecordsRuns(HistoryAfter(prefix), q, x);
        if x != q {
          assert x in prefix;
          var k :| 0 <= k < |prefix| && prefix[k] == x;
          assert runs[k] == x;
        }
      }
    }
  }

  /** The page component, its state updated by the handlers one at a time. */
  class SqlPlayground {
    var query: string
    var results: Option<QueryResult>
    var chartConfig: Option<ChartConfig>
    var isLoading: bool
    var error: Option<string>
    var queryHistory: seq<string>

    ghost predicate Valid()
      reads this
    {
      |queryHistory| <= HistoryLimit && Distinct(queryHistory)
    }

    /** The initial state: history empty, nothing shown, not loading. */
    constructor ()
      ensures Valid()
      ensures query == InitialQuery && results == None && chartConfig == None
      ensures !isLoading && error == None && queryHistory == []
    {
      query := InitialQuery;
      results := None;
      chartConfig := None;
      isLoading := false;
      error := None;
      queryHistory := [];
    }

    /** The part of `runQuery` before the simulated delay. */
    method BeginRun()
      modifies this
      ensures isLoading && error == None
      ensures query == old(query) && results == old(results) && chartConfig == old(chartConfig)
      ensures queryHistory == old(queryHistory)
    {
      isLoading := true;
      error := None;
    }

    /** The part of `runQuery` after the delay: show the mock data, record the
        query, stop loading. */
    method FinishRun(sqlQuery: string)
      requires Valid()
      modifies this
      ensures Valid()
      ensures results == Some(MockData) && chartConfig == Some(MockChartConfig)
      ensures queryHistory == AddToHistory(old(queryHistory), sqlQuery)
      ensures sqlQuery in queryHistory
      ensures !isLoading && error == old(error) && query == old(query)
    {
      results := Some(MockData);
      chartConfig := Some(MockChartConfig);
      AddKeepsDistinct(queryHistory, sqlQuery);
      if sqlQuery !in queryHistory {
        queryHistory := Take([sqlQuery] + queryHistory, HistoryLimit);
      }
      isLoading := false;
    }

    /** `runQuery`: the two parts with nothing in between. */
    method RunQuery(sqlQuery: string)
      requires Valid()
      modifies this
      ensures Valid()
      ensures results == Some(MockData) && chartConfig == Some(MockChartConfig)
      ensures queryHistory == AddToHistory(old(queryHistory), sqlQuery)
      ensures sqlQuery in queryHistory
      ensures !isLoading && error == None && query == old(query)
    {
      BeginRun();
      FinishRun(sqlQuery);
    }

    /** `loadFromHistory`: only the current query changes. */
    method LoadFromHistory(historicalQuery: string)
      requires Valid()
      modifies this
      ensures Valid()
      ensures query == historicalQuery
      ensures queryHistory == old(queryHistory) && results == old(results) && chartConfig == old(chartConfig)
      ensures isLoading == old(isLoading) && error == old(error)
    {
      query := historicalQuery;
    }

    /** `clearHistory`: the history becomes empty and nothing else changes. */
    method ClearHistory()
      modifies this
      ensures Valid()
      ensures queryHistory == []
      ensures query == old(query) && results == old(results) && chartConfig == old(chartConfig)
      ensures isLoading == old(isLoading) && error == old(error)
    {
      queryHistory := [];
    }
  }

  /** A page that runs `runs` in order holds HistoryAfter(runs), so the
      invariant lemma above speaks about the page's own state. */
  method RunAll(runs: seq<string>) returns (page: SqlPlayground)
    ensures fresh(page) && page.Valid()
    ensures page.queryHistory == HistoryAfter(runs)
  {
    page := new SqlPlayground();
    var i := 0;
    while i < |runs|
      invariant 0 <= i <= |runs|
      invariant page.Valid()
      invariant page.queryHistory == HistoryAfter(runs[..i])
    {
      assert runs[..i + 1][..i] == runs[..i];
      page.RunQuery(runs[i]);
      i := i + 1;
    }
    assert runs[..|runs|] == runs;
  }
}
