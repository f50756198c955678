/**
 * The run log of scripts/dca.py (`main`, the write after the order is
 * planned): a CSV file that either does not exist yet or holds rows. A run
 * that finds no file creates it with a header row and its own row; a run
 * that finds one appends its row and touches nothing else.
 */
module TradeLog {
  import opened Wrappers

  /** The header row's cells. */
  const Columns: seq<string> := ["time", "order_price", "amount", "current_price"]

  /** One run's record: time, order price, order size (thousandths of a coin), last traded price. */
  datatype Entry = Entry(time: string, orderPrice: int, amountThousandths: int, currentPrice: int)

  datatype Row = HeaderRow(columns: seq<string>) | EntryRow(entry: Entry)

  /** A log as runs of the script leave it: the header first, then only entry rows. */
  predicate WellFormed(rows: seq<Row>) {
    && |rows| >= 1
    && rows[0] == HeaderRow(Columns)
    && forall i :: 1 <= i < |rows| ==> rows[i].EntryRow?
  }

  /** The entries a reader finds in the rows, in file order. */
  function Entries(rows: seq<Row>): seq<Entry> {
    if rows == [] then []
    else (if rows[0].EntryRow? then [rows[0].entry] else []) + Entries(rows[1..])
  }

  /** The file's rows after one run that records `e`; `None` is a file that does not exist. */
  function AfterRun(log: Option<seq<Row>>, e: Entry): (rows: seq<Row>)
    ensures log.None? ==> rows == [HeaderRow(Columns), EntryRow(e)]
    ensures log.Some? ==> |rows| == |log.value| + 1
    ensures log.Some? ==> rows[..|log.value|] == log.value && rows[|log.value|] == EntryRow(e)
  {
    match log
    case None => [HeaderRow(Columns), EntryRow(e)]
    case Some(old_rows) => old_rows + [EntryRow(e)]
  }

  lemma {:induction false} EntriesAppend(a: seq<Row>, b: seq<Row>)
    ensures Entries(a + b) == Entries(a) + Entries(b)
  {
    if a == [] {
      assert a + b == b;
    } else {
      assert (a + b)[1..] == a[1..] + b;
      EntriesAppend(a[1..], b);
    }
  }

  /**
   * A run keeps a log well formed (and makes one when there was none), and
   * the entries afterwards are the entries before plus the new one.
   */
  lemma AfterRunExtendsEntries(log: Option<seq<Row>>, e: Entry)
    requires log.Some? ==> WellFormed(log.value)
    ensures WellFormed(AfterRun(log, e))
    ensures Entries(AfterRun(log, e)) == (if log.None? then [] else Entries(log.value)) + [e]
  {
    match log
    case None =>
      assert Entries([HeaderRow(Columns), EntryRow(e)]) == Entries([HeaderRow(Columns)]) + Entries([EntryRow(e)]) by {
        EntriesAppend([HeaderRow(Columns)], [EntryRow(e)]);
      }
    case Some(rows) =>
      EntriesAppend(rows, [EntryRow(e)]);
  }

  /** The log after a series of runs recording `es`, starting with no file. */
  function Replay(es: seq<Entry>): Option<seq<Row>> {
    if es == [] then None
    else Some(AfterRun(Replay(es[..|es| - 1]), es[|es| - 1]))
  }

  function EntryRows(es: seq<Entry>): (rows: seq<Row>)
    ensures |rows| == |es| && forall i :: 0 <= i < |es| ==> rows[i] == EntryRow(es[i])
  {
    if es == [] then [] else EntryRows(es[..|es| - 1]) + [EntryRow(es[|es| - 1])]
  }

  /** After one or more runs from no file, the log is the header written once and one row per run, in order. */
  lemma {:induction false} ReplayHeaderOnce(es: seq<Entry>)
    requires es != []
    ensures Replay(es) == Some([HeaderRow(Columns)] + EntryRows(es))
  {
    var init := es[..|es| - 1];
    if init == [] {
      assert |es| == 1 && Replay(init) == None;
      assert Replay(es) == Some([HeaderRow(Columns), EntryRow(es[0])]);
      assert EntryRows(es) == [EntryRow(es[0])];
      assert [HeaderRow(Columns)] + [EntryRow(es[0])] == [HeaderRow(Columns), EntryRow(es[0])];
    } else {
      ReplayHeaderOnce(init);
      assert [HeaderRow(Columns)] + EntryRows(init) + [EntryRow(es[|es| - 1])]
          == [HeaderRow(Columns)] + EntryRows(es);
    }
  }

  /** The log file; `rows` is `None` while the file does not exist. */
  class LogFile {
    var rows: Option<seq<Row>>

    constructor (initial: Option<seq<Row>>)
      ensures rows == initial
    {
      rows := initial;
    }

    /** Records one run's entry: appends to an existing file, or creates it with the header first. */
    method WriteEntry(e: Entry)
      modifies this
      ensures rows == Some(AfterRun(old(rows), e))
    {
      if rows.Some? {
        rows := Some(rows.value + [EntryRow(e)]);
      } else {
        rows := Some([]);
        rows := Some([HeaderRow(Columns)]);
        rows := Some(rows.value + [EntryRow(e)]);
        assert rows.value == [HeaderRow(Columns), EntryRow(e)];
      }
    }
  }
}
