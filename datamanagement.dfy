/**
 * The CSV codec of components/DataManagement.tsx: export joins the fields of
 * each record with ',' and the lines with '\n' under a fixed header; import
 * splits the text on '\n', keeps the lines that are not blank, drops the
 * first of them, splits each on ',' and assigns the fields by position, and
 * appends the records to the existing list.
 *
 * Number printing and `parseFloat` enter as a `NumberFormat` pair; the
 * fallback id `Date.now().toString() + Math.random()` enters as `freshId`,
 * the id given to the record parsed from the `k`-th imported line.
 */
module DataManagement {
  import opened Types

  // ---------------------------------------------------------------------
  // String.prototype.join and String.prototype.split on one character.
  // ---------------------------------------------------------------------

  /** `parts.join(sep)`: the parts with `sep` between neighbours. */
  function Join(parts: seq<string>, sep: char): string
    decreases |parts|
  {
    if parts == [] then ""
    else if |parts| == 1 then parts[0]
    else parts[0] + [sep] + Join(parts[1..], sep)
  }

  /**
   * `s.split(sep)`: the maximal pieces between occurrences of `sep`; the
   * empty string splits into one empty piece.
   */
  function Split(s: string, sep: char): (r: seq<string>)
    ensures |r| >= 1
    decreases |s|
  {
    if s == [] then [""]
    else
      var rest := Split(s[1..], sep);
      if s[0] == sep then [""] + rest else [[s[0]] + rest[0]] + rest[1..]
  }

  /** A piece without the separator does not split. */
  lemma {:induction false} SplitPiece(p: string, sep: char)
    requires sep !in p
    ensures Split(p, sep) == [p]
    decreases |p|
  {
    if p != [] {
      SplitPiece(p[1..], sep);
      assert p == [p[0]] + p[1..];
    }
  }

  /** A piece without the separator, then the separator, splits off in front. */
  lemma {:induction false} SplitFront(p: string, sep: char, s: string)
    requires sep !in p
    ensures Split(p + [sep] + s, sep) == [p] + Split(s, sep)
    decreases |p|
  {
    var t := p + [sep] + s;
    if p == [] {
      assert t[1..] == s;
    } else {
      assert t[1..] == p[1..] + [sep] + s;
      SplitFront(p[1..], sep, s);
      assert [p[0]] + p[1..] == p;
    }
  }

  /** Splitting undoes joining when no part holds the separator. */
  lemma {:induction false} SplitJoin(parts: seq<string>, sep: char)
    requires |parts| >= 1
    requires forall p :: p in parts ==> sep !in p
    ensures Split(Join(parts, sep), sep) == parts
    decreases |parts|
  {
    if |parts| == 1 {
      SplitPiece(parts[0], sep);
    } else {
      assert forall p :: p in parts[1..] ==> p in parts;
      SplitJoin(parts[1..], sep);
      SplitFront(parts[0], sep, Join(parts[1..], sep));
      assert [parts[0]] + parts[1..] == parts;
    }
  }

  /** Joining undoes splitting, for every string. */
  lemma {:induction false} JoinSplit(s: string, sep: char)
    ensures Join(Split(s, sep), sep) == s
    decreases |s|
  {
    if s != [] {
      var rest := Split(s[1..], sep);
      JoinSplit(s[1..], sep);
      if s[0] == sep {
        assert Join([""] + rest, sep) == [sep] + Join(rest, sep) by {
          assert ([""] + rest)[1..] == rest;
        }
        assert s == [s[0]] + s[1..];
      } else {
        var r := [[s[0]] + rest[0]] + rest[1..];
        if |rest| == 1 {
          assert Join(r, sep) == [s[0]] + rest[0];
        } else {
          assert r[1..] == rest[1..];
          assert Join(rest, sep) == rest[0] + [sep] + Join(rest[1..], sep);
        }
        assert s == [s[0]] + s[1..];
      }
    }
  }

  /** The joined string holds the separator when there are two parts or more. */
  lemma JoinHasSeparator(parts: seq<string>, sep: char)
    requires |parts| >= 2
    ensures sep in Join(parts, sep)
  {
    assert Join(parts, sep)[|parts[0]|] == sep;
  }

  // ---------------------------------------------------------------------
  // Blank lines (String.prototype.trim).
  // ---------------------------------------------------------------------

  /** The characters `trim` removes: ECMAScript white space and line terminators. */
  predicate IsWhitespace(c: char) {
    c == '\t' || c == '\n' || c == '\U{000B}' || c == '\U{000C}' || c == '\r' || c == ' '
    || c == '\U{00A0}' || c == '\U{1680}' || ('\U{2000}' <= c <= '\U{200A}')
    || c == '\U{2028}' || c == '\U{2029}' || c == '\U{202F}' || c == '\U{205F}' || c == '\U{3000}' || c == '\U{FEFF}'
  }

  /** `l.trim()` is a non-empty (truthy) string. */
  predicate NonBlank(l: string) {
    exists i :: 0 <= i < |l| && !IsWhitespace(l[i])
  }

  /** `lines.filter(l => l.trim())`. */
  function Kept(lines: seq<string>): (r: seq<string>)
    ensures |r| <= |lines|
    ensures forall l :: l in r <==> l in lines && NonBlank(l)
    decreases |lines|
  {
    if lines == [] then []
    else
      var p := Kept(lines[..|lines| - 1]);
      var l := lines[|lines| - 1];
      assert lines == lines[..|lines| - 1] + [l];
      if NonBlank(l) then p + [l] else p
  }

  /** Filtering lines that are all non-blank keeps every one of them. */
  lemma {:induction false} KeptAll(lines: seq<string>)
    requires forall l :: l in lines ==> NonBlank(l)
    ensures Kept(lines) == lines
    decreases |lines|
  {
    if lines != [] {
      assert forall l :: l in lines[..|lines| - 1] ==> l in lines;
      KeptAll(lines[..|lines| - 1]);
      assert lines[|lines| - 1] in lines;
    }
  }

  // ---------------------------------------------------------------------
  // Numbers.
  // ---------------------------------------------------------------------

  /** Number-to-string conversion and `parseFloat`. */
  datatype NumberFormat = NumberFormat(show: real -> string, parse: string -> real)

  /** `x` prints to a non-empty field holding neither ',' nor '\n'. */
  predicate Printable(nf: NumberFormat, x: real) {
    nf.show(x) != [] && Clean(nf.show(x))
  }

  /** `parseFloat` of the printed `x`: the number an import reads back. */
  function Reread(nf: NumberFormat, x: real): real {
    nf.parse(nf.show(x))
  }

  /**
   * `x` prints to a field and reads back as itself, as `parseFloat(String(x))`
   * does for every finite double.
   */
  predicate PrintsBack(nf: NumberFormat, x: real) {
    Printable(nf, x) && Reread(nf, x) == x
  }

  /** A printer and parser that print 1 back: the hypothesis can be met. */
  lemma PrintsBackExample()
    ensures PrintsBack(NumberFormat(x => "1", s => if s == "1" then 1.0 else 0.0), 1.0)
    ensures !PrintsBack(NumberFormat(x => "1", s => if s == "1" then 1.0 else 0.0), 2.0)
  {
  }

  /** The field at `i`, or "" for a field the line does not have (`undefined`). */
  function Field(parts: seq<string>, i: nat): string {
    if i < |parts| then parts[i] else ""
  }

  /** `x || fallback` on strings: the empty string is falsy. */
  function OrElse(x: string, fallback: string): string {
    if x != [] then x else fallback
  }

  /** Field contents that survive the round trip: no separator of either kind. */
  predicate Clean(s: string) {
    ',' !in s && '\n' !in s
  }

  // ---------------------------------------------------------------------
  // Transactions (components/DataManagement.tsx:44-50, 64-92).
  // ---------------------------------------------------------------------

  /** `headers.join(',')`. */
  const TransactionHeader: string := "id,date,ticker,name,type,quantity,price,fees"

  /** The fields of one exported transaction, in header order. */
  function TransactionFields(t: Transaction, nf: NumberFormat): (r: seq<string>)
    ensures |r| == 8
  {
    [t.id, t.date, t.ticker, t.name, t.kind, nf.show(t.quantity), nf.show(t.price), nf.show(t.fees)]
  }

  /** One comma-joined line per transaction, in list order. */
  function TransactionLines(txs: seq<Transaction>, nf: NumberFormat): (r: seq<string>)
    ensures |r| == |txs|
    ensures forall i :: 0 <= i < |txs| ==> r[i] == Join(TransactionFields(txs[i], nf), ',')
  {
    seq(|txs|, i requires 0 <= i < |txs| => Join(TransactionFields(txs[i], nf), ','))
  }

  /** The header line, then one line per transaction, joined by '\n'. */
  function ExportTransactions(txs: seq<Transaction>, nf: NumberFormat): string {
    Join([TransactionHeader] + TransactionLines(txs, nf), '\n')
  }

  /** One line: fields by position, a missing or empty id replaced, missing fees read as "0". */
  function ParseTransaction(line: string, nf: NumberFormat, fallbackId: string): (r: Transaction)
    ensures fallbackId != [] ==> r.id != []
  {
    var parts := Split(line, ',');
    Transaction(
      OrElse(Field(parts, 0), fallbackId),
      Field(parts, 1),
      Field(parts, 2),
      Field(parts, 3),
      Field(parts, 4),
      nf.parse(Field(parts, 5)),
      nf.parse(Field(parts, 6)),
      nf.parse(OrElse(Field(parts, 7), "0")))
  }

  /** The lines that become records: the kept lines after the first. */
  function DataLines(text: string): (r: seq<string>)
    ensures |r| == if |Kept(Split(text, '\n'))| == 0 then 0 else |Kept(Split(text, '\n'))| - 1
  {
    var lines := Kept(Split(text, '\n'));
    if lines == [] then [] else lines[1..]
  }

  /** `imported`: one transaction per data line, in file order. */
  function ImportedTransactions(text: string, nf: NumberFormat, freshId: nat -> string): (r: seq<Transaction>)
    ensures |r| == |DataLines(text)|
    ensures forall k :: 0 <= k < |r| ==> r[k] == ParseTransaction(DataLines(text)[k], nf, freshId(k))
  {
    var lines := DataLines(text);
    seq(|lines|, k requires 0 <= k < |lines| => ParseTransaction(lines[k], nf, freshId(k)))
  }

  /** `onImportTransactions(prev => [...prev, ...imported])`. */
  function ImportTransactions(prev: seq<Transaction>, text: string, nf: NumberFormat, freshId: nat -> string): (r: seq<Transaction>)
    ensures |r| == |prev| + |ImportedTransactions(text, nf, freshId)|
    ensures r[..|prev|] == prev && r[|prev|..] == ImportedTransactions(text, nf, freshId)
  {
    prev + ImportedTransactions(text, nf, freshId)
  }

  /** A transaction export can reproduce: a non-empty id and clean text fields. */
  predicate Exportable(t: Transaction) {
    t.id != [] && Clean(t.id) && Clean(t.date) && Clean(t.ticker) && Clean(t.name) && Clean(t.kind)
  }

  /** Every number of the transaction prints to a field. */
  predicate TransactionPrintable(t: Transaction, nf: NumberFormat) {
    Printable(nf, t.quantity) && Printable(nf, t.price) && Printable(nf, t.fees)
  }

  /** Every number of the transaction prints and reads back as itself. */
  predicate TransactionPrintsBack(t: Transaction, nf: NumberFormat) {
    PrintsBack(nf, t.quantity) && PrintsBack(nf, t.price) && PrintsBack(nf, t.fees)
  }

  /** The transaction an import reads from its exported line: each number printed and reparsed. */
  function Reprinted(t: Transaction, nf: NumberFormat): (r: Transaction)
    ensures r.id == t.id && r.date == t.date && r.ticker == t.ticker && r.name == t.name && r.kind == t.kind
    ensures TransactionPrintsBack(t, nf) ==> r == t
    ensures r == t ==> Reread(nf, t.quantity) == t.quantity && Reread(nf, t.price) == t.price && Reread(nf, t.fees) == t.fees
  {
    t.(quantity := Reread(nf, t.quantity), price := Reread(nf, t.price), fees := Reread(nf, t.fees))
  }

  // ---------------------------------------------------------------------
  // Dividends (components/DataManagement.tsx:54-60, 94-121).
  // ---------------------------------------------------------------------

  /** `headers.join(',')`. */
  const DividendHeader: string := "id,date,ticker,name,amount"

  function DividendFields(d: Dividend, nf: NumberFormat): seq<string> {
    [d.id, d.date, d.ticker, d.name, nf.show(d.amount)]
  }

  function DividendLines(divs: seq<Dividend>, nf: NumberFormat): (r: seq<string>)
    ensures |r| == |divs|
    ensures forall i :: 0 <= i < |divs| ==> r[i] == Join(DividendFields(divs[i], nf), ',')
  {
    seq(|divs|, i requires 0 <= i < |divs| => Join(DividendFields(divs[i], nf), ','))
  }

  /** The header line, then one line per dividend, joined by '\n'. */
  function ExportDividends(divs: seq<Dividend>, nf: NumberFormat): string {
    Join([DividendHeader] + DividendLines(divs, nf), '\n')
  }

  function ParseDividend(line: string, nf: NumberFormat, fallbackId: string): Dividend {
    var parts := Split(line, ',');
    Dividend(OrElse(Field(parts, 0), fallbackId), Field(parts, 1), Field(parts, 2), Field(parts, 3), nf.parse(Field(parts, 4)))
  }

  function ImportedDividends(text: string, nf: NumberFormat, freshId: nat -> string): (r: seq<Dividend>)
    ensures |r| == |DataLines(text)|
    ensures forall k :: 0 <= k < |r| ==> r[k] == ParseDividend(DataLines(text)[k], nf, freshId(k))
  {
    var lines := DataLines(text);
    seq(|lines|, k requires 0 <= k < |lines| => ParseDividend(lines[k], nf, freshId(k)))
  }

  function ImportDividends(prev: seq<Dividend>, text: string, nf: NumberFormat, freshId: nat -> string): (r: seq<Dividend>)
    ensures |r| == |prev| + |ImportedDividends(text, nf, freshId)|
    ensures r[..|prev|] == prev && r[|prev|..] == ImportedDividends(text, nf, freshId)
  {
    prev + ImportedDividends(text, nf, freshId)
  }

  predicate DividendExportable(d: Dividend) {
    d.id != [] && Clean(d.id) && Clean(d.date) && Clean(d.ticker) && Clean(d.name)
  }

  /** The receipt an import reads from its exported line: the amount printed and reparsed. */
  function DividendReprinted(d: Dividend, nf: NumberFormat): (r: Dividend)
    ensures r.id == d.id && r.date == d.date && r.ticker == d.ticker && r.name == d.name
    ensures PrintsBack(nf, d.amount) ==> r == d
    ensures r == d ==> Reread(nf, d.amount) == d.amount
  {
    d.(amount := Reread(nf, d.amount))
  }

  // ---------------------------------------------------------------------
  // The round trip.
  // ---------------------------------------------------------------------

  /**
   * A CSV text made of a header and record lines, none blank and none holding
   * '\n', yields exactly the record lines as data lines.
   */
  lemma DataLinesOfExport(header: string, rows: seq<string>)
    requires ',' in header && '\n' !in header
    requires forall r :: r in rows ==> ',' in r && '\n' !in r
    ensures DataLines(Join([header] + rows, '\n')) == rows
  {
    var lines := [header] + rows;
    assert forall l :: l in lines ==> l == header || l in rows;
    SplitJoin(lines, '\n');
    forall l | l in lines ensures NonBlank(l) {
      var i :| 0 <= i < |l| && l[i] == ',';
    }
    KeptAll(lines);
    assert lines[1..] == rows;
  }

  /**
   * The line of an exportable transaction parses back to it with every number
   * reparsed, and so to the transaction itself when its numbers print back.
   */
  lemma TransactionLineRoundTrip(t: Transaction, nf: NumberFormat, fallbackId: string)
    requires Exportable(t) && TransactionPrintable(t, nf)
    ensures ',' in Join(TransactionFields(t, nf), ',') && '\n' !in Join(TransactionFields(t, nf), ',')
    ensures ParseTransaction(Join(TransactionFields(t, nf), ','), nf, fallbackId) == Reprinted(t, nf)
    ensures TransactionPrintsBack(t, nf) ==> ParseTransaction(Join(TransactionFields(t, nf), ','), nf, fallbackId) == t
  {
    var fs := TransactionFields(t, nf);
    SplitJoin(fs, ',');
    JoinHasSeparator(fs, ',');
    JoinClean(fs);
  }

  lemma DividendLineRoundTrip(d: Dividend, nf: NumberFormat, fallbackId: string)
    requires DividendExportable(d) && Printable(nf, d.amount)
    ensures ',' in Join(DividendFields(d, nf), ',') && '\n' !in Join(DividendFields(d, nf), ',')
    ensures ParseDividend(Join(DividendFields(d, nf), ','), nf, fallbackId) == DividendReprinted(d, nf)
    ensures PrintsBack(nf, d.amount) ==> ParseDividend(Join(DividendFields(d, nf), ','), nf, fallbackId) == d
  {
    var fs := DividendFields(d, nf);
    SplitJoin(fs, ',');
    JoinHasSeparator(fs, ',');
    JoinClean(fs);
  }

  /** Joining with ',' parts that hold no '\n' gives a string without '\n'. */
  lemma {:induction false} JoinClean(parts: seq<string>)
    requires forall p :: p in parts ==> '\n' !in p
    ensures '\n' !in Join(parts, ',')
    decreases |parts|
  {
    if |parts| > 1 {
      assert forall p :: p in parts[1..] ==> p in parts;
      JoinClean(parts[1..]);
    }
  }

  /** Both header lines hold a ',' and no '\n'. */
  lemma HeaderLines()
    ensures ',' in TransactionHeader && '\n' !in TransactionHeader
    ensures ',' in DividendHeader && '\n' !in DividendHeader
  {
    assert TransactionHeader[2] == ',' && DividendHeader[2] == ',';
  }

  /** Every exported transaction line holds a ',' and no '\n', and parses back to its reprinted transaction. */
  lemma TransactionLinesRoundTrip(txs: seq<Transaction>, nf: NumberFormat, freshId: nat -> string)
    requires forall t :: t in txs ==> Exportable(t) && TransactionPrintable(t, nf)
    ensures forall r :: r in TransactionLines(txs, nf) ==> ',' in r && '\n' !in r
    ensures forall i :: 0 <= i < |txs| ==> ParseTransaction(TransactionLines(txs, nf)[i], nf, freshId(i)) == Reprinted(txs[i], nf)
  {
    forall i | 0 <= i < |txs|
      ensures ',' in TransactionLines(txs, nf)[i] && '\n' !in TransactionLines(txs, nf)[i]
      ensures ParseTransaction(TransactionLines(txs, nf)[i], nf, freshId(i)) == Reprinted(txs[i], nf)
    {
      TransactionLineRoundTrip(txs[i], nf, freshId(i));
    }
  }

  lemma DividendLinesRoundTrip(divs: seq<Dividend>, nf: NumberFormat, freshId: nat -> string)
    requires forall d :: d in divs ==> DividendExportable(d) && Printable(nf, d.amount)
    ensures forall r :: r in DividendLines(divs, nf) ==> ',' in r && '\n' !in r
    ensures forall i :: 0 <= i < |divs| ==> ParseDividend(DividendLines(divs, nf)[i], nf, freshId(i)) == DividendReprinted(divs[i], nf)
  {
    forall i | 0 <= i < |divs|
      ensures ',' in DividendLines(divs, nf)[i] && '\n' !in DividendLines(divs, nf)[i]
      ensures ParseDividend(DividendLines(divs, nf)[i], nf, freshId(i)) == DividendReprinted(divs[i], nf)
    {
      DividendLineRoundTrip(divs[i], nf, freshId(i));
    }
  }

  /** The data lines of a transaction export are its record lines. */
  lemma TransactionExportDataLines(txs: seq<Transaction>, nf: NumberFormat)
    requires forall t :: t in txs ==> Exportable(t) && TransactionPrintable(t, nf)
    ensures DataLines(ExportTransactions(txs, nf)) == TransactionLines(txs, nf)
  {
    TransactionLinesRoundTrip(txs, nf, k => "");
    HeaderLines();
    DataLinesOfExport(TransactionHeader, TransactionLines(txs, nf));
  }

  lemma DividendExportDataLines(divs: seq<Dividend>, nf: NumberFormat)
    requires forall d :: d in divs ==> DividendExportable(d) && Printable(nf, d.amount)
    ensures DataLines(ExportDividends(divs, nf)) == DividendLines(divs, nf)
  {
    DividendLinesRoundTrip(divs, nf, k => "");
    HeaderLines();
    DataLinesOfExport(DividendHeader, DividendLines(divs, nf));
  }

  /**
   * Importing an export returns the transactions exported, in order, each
   * with its numbers printed and reparsed, when every id is non-empty and no
   * field holds ',' or '\n'. The fallback ids are never used.
   */
  lemma TransactionsReread(txs: seq<Transaction>, nf: NumberFormat, freshId: nat -> string)
    requires forall t :: t in txs ==> Exportable(t) && TransactionPrintable(t, nf)
    ensures |ImportedTransactions(ExportTransactions(txs, nf), nf, freshId)| == |txs|
    ensures forall i :: 0 <= i < |txs| ==> ImportedTransactions(ExportTransactions(txs, nf), nf, freshId)[i] == Reprinted(txs[i], nf)
  {
    TransactionExportDataLines(txs, nf);
    TransactionLinesRoundTrip(txs, nf, freshId);
  }

  /** When moreover every number prints back, the import returns exactly the transactions exported. */
  lemma TransactionsRoundTrip(txs: seq<Transaction>, nf: NumberFormat, freshId: nat -> string)
    requires forall t :: t in txs ==> Exportable(t) && TransactionPrintsBack(t, nf)
    ensures ImportedTransactions(ExportTransactions(txs, nf), nf, freshId) == txs
  {
    TransactionsReread(txs, nf, freshId);
  }

  /** The same for dividends: the amounts come back reparsed. */
  lemma DividendsReread(divs: seq<Dividend>, nf: NumberFormat, freshId: nat -> string)
    requires forall d :: d in divs ==> DividendExportable(d) && Printable(nf, d.amount)
    ensures |ImportedDividends(ExportDividends(divs, nf), nf, freshId)| == |divs|
    ensures forall i :: 0 <= i < |divs| ==> ImportedDividends(ExportDividends(divs, nf), nf, freshId)[i] == DividendReprinted(divs[i], nf)
  {
    DividendExportDataLines(divs, nf);
    DividendLinesRoundTrip(divs, nf, freshId);
  }

  /** When every amount prints back, the import returns exactly the receipts exported. */
  lemma DividendsRoundTrip(divs: seq<Dividend>, nf: NumberFormat, freshId: nat -> string)
    requires forall d :: d in divs ==> DividendExportable(d) && PrintsBack(nf, d.amount)
    ensures ImportedDividends(ExportDividends(divs, nf), nf, freshId) == divs
  {
    DividendsReread(divs, nf, freshId);
  }

  /** The hypotheses of the round trip can be met by a record and a printer. */
  lemma RoundTripExample()
    ensures var nf := NumberFormat(x => "1", s => if s == "1" then 1.0 else 0.0);
            var t := Transaction("1", "d", "A", "a", BUY, 1.0, 1.0, 1.0);
            Exportable(t) && TransactionPrintsBack(t, nf)
  {
    assert BUY == "BUY";
  }

  /**
   * The export's lines are the fixed header and then one line per
   * transaction in list order, each its eight fields joined by ','.
   */
  lemma TransactionExportLines(txs: seq<Transaction>, nf: NumberFormat)
    requires forall t :: t in txs ==> Exportable(t) && TransactionPrintable(t, nf)
    ensures var lines := Split(ExportTransactions(txs, nf), '\n');
            && |lines| == |txs| + 1
            && lines[0] == TransactionHeader
            && forall i :: 0 <= i < |txs| ==> lines[i + 1] == Join(TransactionFields(txs[i], nf), ',')
  {
    HeaderLines();
    TransactionLinesRoundTrip(txs, nf, k => "");
    var all := [TransactionHeader] + TransactionLines(txs, nf);
    assert forall l :: l in all ==> l == TransactionHeader || l in TransactionLines(txs, nf);
    SplitJoin(all, '\n');
  }

  /** The same layout for dividends, with five fields. */
  lemma DividendExportLines(divs: seq<Dividend>, nf: NumberFormat)
    requires forall d :: d in divs ==> DividendExportable(d) && Printable(nf, d.amount)
    ensures var lines := Split(ExportDividends(divs, nf), '\n');
            && |lines| == |divs| + 1
            && lines[0] == DividendHeader
            && forall i :: 0 <= i < |divs| ==> lines[i + 1] == Join(DividendFields(divs[i], nf), ',')
  {
    HeaderLines();
    DividendLinesRoundTrip(divs, nf, k => "");
    var all := [DividendHeader] + DividendLines(divs, nf);
    assert forall l :: l in all ==> l == DividendHeader || l in DividendLines(divs, nf);
    SplitJoin(all, '\n');
  }

  /**
   * A line of seven fields reads the fees as "0", and an empty first field
   * takes the fallback id; the type field is taken as written, whatever it
   * holds.
   */
  lemma ParseShortLine(fields: seq<string>, nf: NumberFormat, fallbackId: string)
    requires |fields| == 7 && forall f :: f in fields ==> ',' !in f
    ensures var t := ParseTransaction(Join(fields, ','), nf, fallbackId);
            && t.id == (if fields[0] == "" then fallbackId else fields[0])
            && t.kind == fields[4]
            && t.quantity == nf.parse(fields[5]) && t.price == nf.parse(fields[6])
            && t.fees == nf.parse("0")
  {
    SplitJoin(fields, ',');
  }

  /** A dividend line of four fields reads the amount as `parseFloat` of an empty field. */
  lemma ParseShortDividendLine(fields: seq<string>, nf: NumberFormat, fallbackId: string)
    requires |fields| == 4 && forall f :: f in fields ==> ',' !in f
    ensures ParseDividend(Join(fields, ','), nf, fallbackId).amount == nf.parse("")
  {
    SplitJoin(fields, ',');
  }

  /** Filtering distributes over concatenation. */
  lemma {:induction false} KeptConcat(a: seq<string>, b: seq<string>)
    ensures Kept(a + b) == Kept(a) + Kept(b)
    decreases |b|
  {
    if b == [] {
      assert a + b == a;
    } else {
      var p, l := b[..|b| - 1], b[|b| - 1];
      assert b == p + [l];
      assert a + b == (a + p) + [l];
      KeptConcat(a, p);
      KeptSnoc(a + p, l);
      KeptSnoc(p, l);
    }
  }

  lemma KeptSnoc(a: seq<string>, l: string)
    ensures Kept(a + [l]) == if NonBlank(l) then Kept(a) + [l] else Kept(a)
  {
    assert (a + [l])[..|a|] == a;
  }

  /** A blank line anywhere in the file changes nothing that is imported. */
  lemma BlankLineIgnored(before: seq<string>, blank: string, after: seq<string>)
    requires !NonBlank(blank)
    requires forall l :: l in before + [blank] + after ==> '\n' !in l
    ensures DataLines(Join(before + [blank] + after, '\n')) == DataLines(Join(before + after, '\n'))
  {
    SplitJoin(before + [blank] + after, '\n');
    KeptConcat(before + [blank], after);
    KeptConcat(before, [blank]);
    assert Kept([blank]) == [] by {
      assert [blank][..0] == [];
    }
    if before + after == [] {
      assert Split("", '\n') == [""];
      assert Kept([""]) == [] by {
        assert [""][..0] == [];
      }
    } else {
      assert forall l :: l in before + after ==> l in before + [blank] + after;
      SplitJoin(before + after, '\n');
      KeptConcat(before, after);
    }
  }
}
