/**
 Exporting a grid: all pages are fetched, then the rows are saved as CSV files, in smaller
 and smaller slices whenever a browser refuses a file as too large.
 */
module Export {
  import Csv
  import PercentEncoding

  // ---------------------------------------------------------------- how large a saved file is

  const BOM := '\U{FEFF}'
  const CHROME_MAX_SIZE := 2 * 1024 * 1024
  const DATA_URI_PREFIX := "data:attachment/csv,"

  function UriLength(s: string): nat { |PercentEncoding.Encode(s)| }

  function WithBom(csv: string): string {
    if csv != "" && csv[0] == BOM then csv else [BOM] + csv
  }

  datatype Browser = SavesBlobs | Chrome | Other

  /** Whether `save`, asked not to truncate, refuses the file. */
  predicate TooLarge(browser: Browser, csv: string) {
    browser.Chrome? && |DATA_URI_PREFIX| + UriLength(WithBom(csv)) > CHROME_MAX_SIZE
  }

  lemma UriLengthConcat(a: string, b: string)
    ensures UriLength(a + b) == UriLength(a) + UriLength(b)
  {
    PercentEncoding.EncodeConcat(a, b);
  }

  // ---------------------------------------------------------------- slices

  type Row = seq<string>

  /** The file for a slice of the rows. */
  function Content(names: seq<string>, rows: seq<Row>): string {
    Csv.Text(Csv.Records(rows, names, []))
  }

  /** What one row adds to the encoded length: its line and the line break before it. */
  function RowSize(row: Row): nat { UriLength(Csv.Line(row)) + UriLength(Csv.NEWLINE) }

  function RowSizes(rows: seq<Row>): nat
    decreases |rows|
  {
    if rows == [] then 0 else RowSizes(rows[..|rows| - 1]) + RowSize(rows[|rows| - 1])
  }

  lemma {:induction false} TextSnoc(records: seq<seq<string>>, last: seq<string>)
    requires |records| > 0
    ensures Csv.Text(records + [last]) == Csv.Text(records) + (Csv.NEWLINE + Csv.Line(last))
    decreases |records|
  {
    hide Csv.Text, Csv.Line;
    var all := records + [last];
    Csv.TextOf(all);
    Csv.TextOf(records);
    assert all[1..] == records[1..] + [last];
    if |records| == 1 {
      Csv.TextOf([last]);
      assert all[1..] == [last];
    } else {
      TextSnoc(records[1..], last);
    }
  }

  lemma ContentSnoc(names: seq<string>, rows: seq<Row>, last: Row)
    ensures Content(names, rows + [last]) == Content(names, rows) + (Csv.NEWLINE + Csv.Line(last))
    ensures Content(names, []) == Csv.Line(names)
  {
    hide Csv.Text, Csv.Line;
    var records := [names] + rows;
    assert Csv.Records(rows, names, []) == records && Csv.Records(rows + [last], names, []) == records + [last];
    TextSnoc(records, last);
    assert Csv.Records([], names, []) == [names];
    Csv.TextOf([names]);
    assert Csv.Line(names) + "" == Csv.Line(names);
  }

  /** The encoded length of a file is that of its header plus what each row adds. */
  lemma {:induction false} ContentSize(names: seq<string>, rows: seq<Row>)
    ensures UriLength(Content(names, rows)) == UriLength(Csv.Line(names)) + RowSizes(rows)
    decreases |rows|
  {
    hide Csv.Line, Content, UriLength;
    if rows == [] {
      ContentSnoc(names, [], []);
    } else {
      var front, last := rows[..|rows| - 1], rows[|rows| - 1];
      ContentSize(names, front);
      assert rows == front + [last];
      ContentSnoc(names, front, last);
      UriLengthConcat(Content(names, front), Csv.NEWLINE + Csv.Line(last));
      UriLengthConcat(Csv.NEWLINE, Csv.Line(last));
    }
  }

  /** Whether a file begins with the byte order mark depends on its header alone. */
  lemma FirstCharacter(names: seq<string>, rows: seq<Row>)
    ensures var csv, head := Content(names, rows), Csv.Line(names);
      csv != "" && csv[0] == BOM <==> head != "" && head[0] == BOM
  {
  }

  function BomSize(names: seq<string>): nat {
    var head := Csv.Line(names);
    if head != "" && head[0] == BOM then 0 else UriLength([BOM])
  }

  lemma {:induction false} SavedSize(names: seq<string>, rows: seq<Row>)
    ensures UriLength(WithBom(Content(names, rows))) ==
      BomSize(names) + UriLength(Csv.Line(names)) + RowSizes(rows)
  {
    hide Csv.Line, Content;
    ContentSize(names, rows);
    FirstCharacter(names, rows);
    var csv := Content(names, rows);
    UriLengthConcat([BOM], csv);
  }

  lemma {:induction false} RowSizesConcat(a: seq<Row>, b: seq<Row>)
    ensures RowSizes(a + b) == RowSizes(a) + RowSizes(b)
    decreases |b|
  {
    hide RowSize;
    if b == [] {
      assert a + b == a;
    } else {
      assert (a + b)[..|a + b| - 1] == a + b[..|b| - 1];
      RowSizesConcat(a, b[..|b| - 1]);
    }
  }

  /** A slice within a larger one makes no larger a file. */
  lemma SmallerSliceFits(browser: Browser, names: seq<string>, rows: seq<Row>, lo: nat, from: nat, to: nat, hi: nat)
    requires lo <= from <= to <= hi <= |rows|
    requires TooLarge(browser, Content(names, rows[from..to]))
    ensures TooLarge(browser, Content(names, rows[lo..hi]))
  {
    hide Content, WithBom, UriLength, BomSize, RowSizes;
    SavedSize(names, rows[from..to]);
    SavedSize(names, rows[lo..hi]);
    assert rows[lo..hi] == rows[lo..from] + rows[from..to] + rows[to..hi];
    RowSizesConcat(rows[lo..from] + rows[from..to], rows[to..hi]);
    RowSizesConcat(rows[lo..from], rows[from..to]);
  }

  // ---------------------------------------------------------------- gathering the pages

  /** The page the server answers with, from a list that stays as it is. */
  function Page<Item>(all: seq<Item>, page: nat, size: nat): seq<Item>
    requires page >= 1
  {
    var from := if (page - 1) * size < |all| then (page - 1) * size else |all|;
    var to := if page * size < |all| then page * size else |all|;
    if from <= to then all[from..to] else []
  }

  function CeilDiv(a: nat, b: nat): nat
    requires b > 0
  {
    (a + b - 1) / b
  }

  lemma PageBounds(all: seq<Row>, page: nat, size: nat)
    requires page >= 1 && size > 0
    ensures (page - 1) * size + size == page * size
    ensures page >= CeilDiv(|all|, size) <==> page * size >= |all|
  {
    var q := CeilDiv(|all|, size);
    assert q * size <= |all| + size - 1 < q * size + size;
    if page >= q {
      Monotone(q, page, size);
    } else {
      Monotone(page, q - 1, size);
      assert (q - 1) * size == q * size - size;
    }
  }

  lemma Monotone(a: nat, b: nat, c: nat)
    requires a <= b
    ensures a * c <= b * c
  {
  }

  /** The page loop gathers the server's list. */
  method FetchAll(all: seq<Row>, pageSize: nat) returns (fullList: seq<Row>)
    requires pageSize > 0
    ensures fullList == all
  {
    var finished := false;
    fullList := [];
    var page := 1;
    while !finished
      invariant page >= 1
      invariant finished ==> fullList == all
      invariant !finished ==> (page - 1) * pageSize <= |all| && fullList == all[..(page - 1) * pageSize]
      decreases if finished then 0 else 1 + |all| - (page - 1) * pageSize
    {
      PageBounds(all, page, pageSize);
      var list, totalCount := Page(all, page, pageSize), |all|;
      fullList := fullList + list;
      var totalPage := CeilDiv(totalCount, pageSize);
      if page >= totalPage {
        finished := true;
      }
      page := page + 1;
    }
  }

  // ---------------------------------------------------------------- the chunking loop

  /** The loop's variables; 0 stands for no failed try, as it does in the source's truth test. */
  datatype Chunking = Chunking(exported: nat, lastTry: nat, saved: seq<seq<Row>>, done: bool)

  const START := Chunking(0, 0, [], false)

  /** The end of the next slice: everything left, or two thirds of the slice that was refused. */
  function NextTry(c: Chunking, rows: seq<Row>): nat {
    if c.lastTry != 0 && c.lastTry >= c.exported then (c.lastTry - c.exported) * 2 / 3 + c.exported else |rows|
  }

  /** One turn of the loop. */
  function Turn(c: Chunking, rows: seq<Row>, names: seq<string>, browser: Browser): Chunking {
    var thisTry := NextTry(c, rows);
    if c.done || !(c.exported <= thisTry <= |rows|) then c
    else if TooLarge(browser, Content(names, rows[c.exported..thisTry])) then c.(lastTry := thisTry)
    else Chunking(thisTry, 0, c.saved + [rows[c.exported..thisTry]], thisTry >= |rows|)
  }

  /** No row is too large alone, nor is the header alone when there are no rows. */
  ghost predicate EachRowFits(rows: seq<Row>, names: seq<string>, browser: Browser) {
    (rows == [] ==> !TooLarge(browser, Content(names, []))) &&
    forall i :: 0 <= i < |rows| ==> !TooLarge(browser, Content(names, [rows[i]]))
  }

  /** A refused slice has at least two rows, so two thirds of it are fewer but still some. */
  lemma ShortSliceFits(rows: seq<Row>, names: seq<string>, browser: Browser, from: nat, to: nat)
    requires EachRowFits(rows, names, browser) && from <= to <= |rows| && to <= from + 1 && (rows == [] || from < to)
    ensures !TooLarge(browser, Content(names, rows[from..to]))
  {
    hide TooLarge, Content;
    if rows == [] {
      assert rows[from..to] == [];
    } else {
      assert rows[from..to] == [rows[from]];
    }
  }

  lemma {:induction false} FlattenSnoc(slices: seq<seq<Row>>, slice: seq<Row>)
    ensures Flatten(slices + [slice]) == Flatten(slices) + slice
  {
  }

  function Flatten(slices: seq<seq<Row>>): seq<Row>
    decreases |slices|
  {
    if slices == [] then [] else Flatten(slices[..|slices| - 1]) + slices[|slices| - 1]
  }

  ghost predicate AllFit(slices: seq<seq<Row>>, names: seq<string>, browser: Browser) {
    forall i :: 0 <= i < |slices| ==> !TooLarge(browser, Content(names, slices[i]))
  }

  /** What every turn keeps: the saved slices are the rows exported so far, each one fits, and none is empty. */
  ghost predicate Safe(c: Chunking, rows: seq<Row>, names: seq<string>, browser: Browser) {
    c.exported <= |rows| && Flatten(c.saved) == rows[..c.exported] && AllFit(c.saved, names, browser) &&
    (rows != [] ==> [] !in c.saved) && (c.lastTry == 0 || c.exported + 1 < c.lastTry <= |rows|) &&
    (if c.done then c.exported == |rows| else if rows == [] then c == START else c.exported < |rows|)
  }

  lemma TurnKeepsSafe(c: Chunking, rows: seq<Row>, names: seq<string>, browser: Browser)
    requires EachRowFits(rows, names, browser) && Safe(c, rows, names, browser) && !c.done
    ensures c.exported <= NextTry(c, rows) <= |rows|
    ensures var next := Turn(c, rows, names, browser);
      Safe(next, rows, names, browser) && c.exported <= next.exported &&
      (next.exported == c.exported ==>
        if next.done then c.lastTry == next.lastTry == 0
        else next.lastTry != 0 && (c.lastTry == 0 || next.lastTry < c.lastTry))
  {
    hide TooLarge, Content, EachRowFits, Flatten;
    var thisTry := NextTry(c, rows);
    var slice := rows[c.exported..thisTry];
    if thisTry <= c.exported + 1 {
      ShortSliceFits(rows, names, browser, c.exported, thisTry);
    }
    FlattenSnoc(c.saved, slice);
    assert rows[..thisTry] == rows[..c.exported] + slice;
  }

  method SaveChunks(rows: seq<Row>, names: seq<string>, browser: Browser) returns (saved: seq<seq<Row>>, fileNum: nat)
    requires EachRowFits(rows, names, browser)
    ensures Flatten(saved) == rows && AllFit(saved, names, browser) && (rows != [] ==> [] !in saved)
    ensures fileNum == |saved|
    ensures exists n :: Turns(n, rows, names, browser).done && Turns(n, rows, names, browser).saved == saved
  {
    hide TooLarge, Content, EachRowFits, Flatten, Safe, Turns;
    saved := [];
    fileNum := 0;
    var exported := 0;
    var lastTry := 0;
    var exceed := true;
    ghost var turns := 0;
    ghost var c := START;
    InitiallySafe(rows, names, browser);
    while exceed || exported < |rows|
      invariant c == Chunking(exported, lastTry, saved, !exceed && exported >= |rows|) && fileNum == |saved|
      invariant Safe(c, rows, names, browser) && Turns(turns, rows, names, browser) == c && exported <= |rows|
      decreases |rows| - exported, if lastTry == 0 then |rows| + 1 else lastTry, !c.done
    {
      SafeWithin(c, rows, names, browser);
      TurnKeepsSafe(c, rows, names, browser);
      SafeWithin(Turn(c, rows, names, browser), rows, names, browser);
      TurnsStep(turns, rows, names, browser);
      var thisTry := if lastTry != 0 then (lastTry - exported) * 2 / 3 + exported else |rows|;
      exceed := TooLarge(browser, Content(names, rows[exported..thisTry]));
      c := Turn(c, rows, names, browser);
      turns := turns + 1;
      if exceed {
        lastTry := thisTry;
      } else {
        fileNum := fileNum + 1;
        saved := saved + [rows[exported..thisTry]];
        exported := thisTry;
        lastTry := 0;
      }
    }
    SafeAtTheEnd(c, rows, names, browser);
  }

  lemma {:induction false} InitiallySafe(rows: seq<Row>, names: seq<string>, browser: Browser)
    ensures Safe(START, rows, names, browser) && Turns(0, rows, names, browser) == START
  {
  }

  lemma TurnsStep(n: nat, rows: seq<Row>, names: seq<string>, browser: Browser)
    ensures Turns(n + 1, rows, names, browser) == Turn(Turns(n, rows, names, browser), rows, names, browser)
  {
  }

  lemma SafeAtTheEnd(c: Chunking, rows: seq<Row>, names: seq<string>, browser: Browser)
    requires Safe(c, rows, names, browser) && c.done
    ensures Flatten(c.saved) == rows && AllFit(c.saved, names, browser) && (rows != [] ==> [] !in c.saved)
  {
  }

  /** The whole export: what is saved, file after file, is the server's list. */
  method DoExport(all: seq<Row>, maxPageSize: nat, names: seq<string>, browser: Browser)
    returns (saved: seq<seq<Row>>, fileNum: nat)
    requires maxPageSize > 0 && EachRowFits(all, names, browser)
    ensures Flatten(saved) == all && AllFit(saved, names, browser) && fileNum == |saved|
  {
    var fullList := FetchAll(all, maxPageSize);
    saved, fileNum := SaveChunks(fullList, names, browser);
  }

  // ---------------------------------------------------------------- exactly when the loop ends

  function Turns(n: nat, rows: seq<Row>, names: seq<string>, browser: Browser): Chunking {
    if n == 0 then START else Turn(Turns(n - 1, rows, names, browser), rows, names, browser)
  }

  /** The loop never gets past a row that is too large alone. */
  lemma {:induction false} StuckAtRow(n: nat, rows: seq<Row>, names: seq<string>, browser: Browser, i: nat)
    requires i < |rows| && TooLarge(browser, Content(names, [rows[i]]))
    ensures !Turns(n, rows, names, browser).done && Turns(n, rows, names, browser).exported <= i
  {
    hide TooLarge, Content;
    if n > 0 {
      StuckAtRow(n - 1, rows, names, browser, i);
      var c := Turns(n - 1, rows, names, browser);
      var thisTry := NextTry(c, rows);
      if i < thisTry <= |rows| {
        assert rows[i..i + 1] == [rows[i]];
        SmallerSliceFits(browser, names, rows, c.exported, i, i + 1, thisTry);
      }
    }
  }

  lemma {:induction false} StuckAtHeader(n: nat, names: seq<string>, browser: Browser)
    requires TooLarge(browser, Content(names, []))
    ensures Turns(n, [], names, browser) == START
  {
    hide TooLarge, Content;
    if n > 0 {
      StuckAtHeader(n - 1, names, browser);
    }
  }

  lemma {:induction false} ReachesTheEnd(n: nat, rows: seq<Row>, names: seq<string>, browser: Browser)
    requires EachRowFits(rows, names, browser)
    requires Safe(Turns(n, rows, names, browser), rows, names, browser)
    ensures exists m :: Turns(m, rows, names, browser).done
    decreases |rows| - Turns(n, rows, names, browser).exported,
      if Turns(n, rows, names, browser).lastTry == 0 then |rows| + 1 else Turns(n, rows, names, browser).lastTry
  {
    hide TooLarge, Content, EachRowFits, Safe, Turn, Turns;
    var c, next := Turns(n, rows, names, browser), Turns(n + 1, rows, names, browser);
    if !c.done {
      TurnsStep(n, rows, names, browser);
      TurnKeepsSafe(c, rows, names, browser);
      SafeWithin(next, rows, names, browser);
      if !next.done {
        ReachesTheEnd(n + 1, rows, names, browser);
      }
    }
  }

  lemma SafeWithin(c: Chunking, rows: seq<Row>, names: seq<string>, browser: Browser)
    requires Safe(c, rows, names, browser)
    ensures c.exported <= |rows| && (c.lastTry == 0 || c.exported < c.lastTry <= |rows|)
  {
  }

  /** The chunking loop ends exactly when every row fits a file of its own; otherwise it retries for ever. */
  lemma {:induction false} EndsIffEachRowFits(rows: seq<Row>, names: seq<string>, browser: Browser)
    ensures (exists n :: Turns(n, rows, names, browser).done) <==> EachRowFits(rows, names, browser)
  {
    hide TooLarge, Content, Turns;
    if EachRowFits(rows, names, browser) {
      InitiallySafe(rows, names, browser);
      ReachesTheEnd(0, rows, names, browser);
    } else if rows == [] {
      forall n: nat
        ensures !Turns(n, rows, names, browser).done
      {
        StuckAtHeader(n, names, browser);
      }
    } else {
      var i :| 0 <= i < |rows| && TooLarge(browser, Content(names, [rows[i]]));
      forall n: nat
        ensures !Turns(n, rows, names, browser).done
      {
        StuckAtRow(n, rows, names, browser, i);
      }
    }
  }

  // ---------------------------------------------------------------- which files and which tries

  /** Only Chrome refuses a file, and does when its prefix, mark, header and rows encode to more than 2 MB. */
  lemma {:induction false} RefusedIff(browser: Browser, names: seq<string>, rows: seq<Row>)
    ensures TooLarge(browser, Content(names, rows)) <==>
      browser == Chrome && 20 + BomSize(names) + UriLength(Csv.Line(names)) + RowSizes(rows) > 2_097_152
  {
    hide Content, UriLength, RowSizes;
    SavedSize(names, rows);
    assert |DATA_URI_PREFIX| == 20;
  }

  /** A byte order mark costs three escaped octets unless the header brings one. */
  lemma BomCosts(names: seq<string>)
    ensures BomSize(names) == if Csv.Line(names) != "" && Csv.Line(names)[0] == BOM then 0 else 9
  {
    PercentEncoding.EncodedLength(BOM);
    assert PercentEncoding.Encode([BOM]) == PercentEncoding.EncodeChar(BOM) by {
      assert [BOM][1..] == "";
    }
  }

  /** The first try takes all that is left; after a refusal the next takes two thirds of the rows, rounded down. */
  lemma TriesAreTwoThirds(c: Chunking, rows: seq<Row>, names: seq<string>, browser: Browser)
    requires Safe(c, rows, names, browser) && !c.done
    ensures c.lastTry == 0 ==> NextTry(c, rows) == |rows|
    ensures c.lastTry != 0 ==>
      var refused, next := c.lastTry - c.exported, NextTry(c, rows) - c.exported;
      0 <= 3 * next <= 2 * refused < 3 * (next + 1)
  {
    hide TooLarge, Content, Flatten;
  }

  /** A slice that fits is saved as it is and the next starts after it; one that does not is only noted. */
  lemma TurnSavesOrNotes(c: Chunking, rows: seq<Row>, names: seq<string>, browser: Browser)
    requires Safe(c, rows, names, browser) && !c.done && EachRowFits(rows, names, browser)
    ensures c.exported <= NextTry(c, rows) <= |rows|
    ensures var next, end := Turn(c, rows, names, browser), NextTry(c, rows);
      var slice := rows[c.exported..end];
      if TooLarge(browser, Content(names, slice)) then next == c.(lastTry := end)
      else
        next.saved == c.saved + [slice] && next.exported == end && next.lastTry == 0 &&
        (next.done <==> end == |rows|)
  {
    hide TooLarge, Content, Flatten, Safe;
    TurnKeepsSafe(c, rows, names, browser);
  }
}
