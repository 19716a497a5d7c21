/** The per-guild CSV ledgers: `ensure_csv_exists`, the rewrite done by
    `/scrap`, the appends done by `/from_file` and the "Add to CSV" form,
    and the start-up loop of `on_ready`. Files are modelled as their
    already-parsed rows, keyed by file name. */
module Ledger {
  import opened Chars
  import opened CsvNames
  import opened Mentions

  /** One CSV record as `csv.reader` yields it and `csv.writer` takes it. */
  type Row = seq<string>

  /** The ledger files in the bot's working directory: file name to rows. */
  type Disk = map<string, seq<Row>>

  const HEADER: Row := ["message", "mentions", "extra"]

  /** Every file is some guild's ledger and begins with the header row. */
  predicate WellFormed(d: Disk) {
    forall p | p in d :: GuildOfPath(p).Some? && |d[p]| > 0 && d[p][0] == HEADER
  }

  /** Guild h's ledger is the same in `d` and `e`: present in both or in neither, with the same rows. */
  predicate SameLedger(d: Disk, e: Disk, h: int) {
    && (CsvPath(h) in d <==> CsvPath(h) in e)
    && (CsvPath(h) in d ==> d[CsvPath(h)] == e[CsvPath(h)])
  }

  // ---------------------------------------------------------------------
  // The operations, as functions of the files before them
  // ---------------------------------------------------------------------

  /** `ensure_csv_exists(g)`: create a header-only ledger if there is none. */
  function Ensured(d: Disk, g: int): (r: Disk)
    ensures r.Keys == d.Keys + {CsvPath(g)}
    ensures forall p | p in d :: r[p] == d[p]
    ensures CsvPath(g) !in d ==> r[CsvPath(g)] == [HEADER]
  {
    if CsvPath(g) in d then d else d[CsvPath(g) := [HEADER]]
  }

  /** Ensure the ledger, then truncate it and write the header and `rows`. */
  function Rebuilt(d: Disk, g: int, rows: seq<Row>): (r: Disk)
    ensures r.Keys == d.Keys + {CsvPath(g)}
    ensures r[CsvPath(g)] == [HEADER] + rows
    ensures forall p | p in d && p != CsvPath(g) :: r[p] == d[p]
  {
    var e := Ensured(d, g);
    e[CsvPath(g) := [HEADER] + rows]
  }

  /** Ensure the ledger, then open it for append and write `rows` after what is there. */
  function Appended(d: Disk, g: int, rows: seq<Row>): (r: Disk)
    ensures r.Keys == d.Keys + {CsvPath(g)}
    ensures r[CsvPath(g)] == Ensured(d, g)[CsvPath(g)] + rows
    ensures forall p | p in d && p != CsvPath(g) :: r[p] == d[p]
  {
    var e := Ensured(d, g);
    e[CsvPath(g) := e[CsvPath(g)] + rows]
  }

  /** The `for guild in bot.guilds: ensure_csv_exists(guild.id)` loop. */
  function EnsuredAll(d: Disk, guilds: seq<int>): (r: Disk)
    ensures d.Keys <= r.Keys
    ensures forall p | p in d :: r[p] == d[p]
    decreases |guilds|
  {
    if guilds == [] then d else EnsuredAll(Ensured(d, guilds[0]), guilds[1..])
  }

  // ---------------------------------------------------------------------
  // The rows the commands write
  // ---------------------------------------------------------------------

  /** `/scrap`'s row for one history message: `[text, ats, ""]`. */
  function ScrapedRow(m: Message): (r: Row)
    ensures |r| == 3 && Trimmed(r[0]) && |r[0]| <= |m.content|
    ensures r[1] == "" <==> m.mentionNames == []
    ensures r[2] == ""
  {
    var e := ExtractMentions(m);
    [e.text, e.ats, ""]
  }

  function ScrapedRows(history: seq<Message>): seq<Row> {
    seq(|history|, i requires 0 <= i < |history| => ScrapedRow(history[i]))
  }

  /** The form's optional field: its text when it is non-empty, else `""`. */
  function ExtraText(value: Option<string>): (r: string)
    ensures r == "" <==> value.None? || value.value == ""
    ensures r != "" ==> value == Some(r)
  {
    if value.Some? && value.value != "" then value.value else ""
  }

  /** The "Add to CSV" row: `[text, ats, extra]`. */
  function AddedRow(m: Message, value: Option<string>): (r: Row)
    ensures |r| == 3 && Trimmed(r[0]) && |r[0]| <= |m.content|
    ensures r[1] == "" <==> m.mentionNames == []
    ensures r[2] == "" <==> value.None? || value.value == ""
  {
    var e := ExtractMentions(m);
    [e.text, e.ats, ExtraText(value)]
  }

  /** What `/from_file` copies: everything after the first uploaded row,
      which `next(reader, None)` skips whatever it holds. */
  function UploadBody(upload: seq<Row>): (r: seq<Row>)
    ensures |r| == if upload == [] then 0 else |upload| - 1
    ensures forall i :: 0 <= i < |r| ==> r[i] == upload[i + 1]
  {
    if upload == [] then [] else upload[1..]
  }

  datatype ImportOutcome = Imported | NotCsv

  /** `/from_file`: a name not ending in `.csv` is refused before anything is written. */
  function FromFileDisk(d: Disk, g: int, filename: string, upload: seq<Row>): (r: Disk)
    ensures !EndsWithCsv(filename) ==> r == d
    ensures EndsWithCsv(filename) ==> r.Keys == d.Keys + {CsvPath(g)}
    ensures forall p | p in d && p != CsvPath(g) :: r[p] == d[p]
  {
    if EndsWithCsv(filename) then Appended(d, g, UploadBody(upload)) else d
  }

  function AddedRows(adds: seq<(Message, Option<string>)>): seq<Row> {
    seq(|adds|, i requires 0 <= i < |adds| => AddedRow(adds[i].0, adds[i].1))
  }

  /** Applying the "Add to CSV" form once per (message, field) pair, in order. */
  function AddedAll(d: Disk, g: int, adds: seq<(Message, Option<string>)>): Disk
    decreases |adds|
  {
    if adds == [] then d
    else AddedAll(Appended(d, g, [AddedRow(adds[0].0, adds[0].1)]), g, adds[1..])
  }

  // ---------------------------------------------------------------------
  // Properties
  // ---------------------------------------------------------------------

  /** `ensure_csv_exists` twice is `ensure_csv_exists` once; on a guild
      with no file both leave exactly the header row. */
  lemma EnsureIdempotent(d: Disk, g: int)
    ensures Ensured(Ensured(d, g), g) == Ensured(d, g)
    ensures CsvPath(g) !in d ==> Ensured(Ensured(d, g), g)[CsvPath(g)] == [HEADER]
  {
  }

  /** Working on guild g never touches another guild's ledger. */
  lemma OtherGuildsUntouched(d: Disk, g: int, h: int, rows: seq<Row>)
    requires h != g
    ensures SameLedger(d, Ensured(d, g), h)
    ensures SameLedger(d, Rebuilt(d, g, rows), h)
    ensures SameLedger(d, Appended(d, g, rows), h)
  {
    CsvPathInjective(g, h);
  }

  /** The header invariant: every operation keeps every file a ledger that starts with the header. */
  lemma WellFormedKept(d: Disk, g: int, rows: seq<Row>)
    requires WellFormed(d)
    ensures WellFormed(Ensured(d, g))
    ensures WellFormed(Rebuilt(d, g, rows))
    ensures WellFormed(Appended(d, g, rows))
  {
    CsvPathInverse(CsvPath(g), g);
  }

  /** After start-up every guild the bot is in has a ledger; files that
      existed are untouched and every new one holds just the header. */
  lemma {:induction false} EnsuredAllEffect(d: Disk, guilds: seq<int>)
    ensures EnsuredAll(d, guilds).Keys == d.Keys + set g | g in guilds :: CsvPath(g)
    ensures forall p | p in d :: EnsuredAll(d, guilds)[p] == d[p]
    ensures forall p | p in EnsuredAll(d, guilds) && p !in d :: EnsuredAll(d, guilds)[p] == [HEADER]
    decreases |guilds|
  {
    if guilds != [] {
      var e := Ensured(d, guilds[0]);
      var r := EnsuredAll(e, guilds[1..]);
      assert r == EnsuredAll(d, guilds);
      EnsuredAllEffect(e, guilds[1..]);
      assert (set g | g in guilds :: CsvPath(g))
          == {CsvPath(guilds[0])} + set g | g in guilds[1..] :: CsvPath(g);
      forall p | p in r && p !in d
        ensures r[p] == [HEADER]
      {
        if p in e { assert r[p] == e[p]; }
      }
    }
  }

  lemma {:induction false} WellFormedKeptByEnsuredAll(d: Disk, guilds: seq<int>)
    requires WellFormed(d)
    ensures WellFormed(EnsuredAll(d, guilds))
    decreases |guilds|
  {
    if guilds != [] {
      WellFormedKept(d, guilds[0], []);
      WellFormedKeptByEnsuredAll(Ensured(d, guilds[0]), guilds[1..]);
    }
  }

  /** The start-up loop, one guild more: ensure all the earlier ones, then this one. */
  lemma {:induction false} EnsuredAllSnoc(d: Disk, guilds: seq<int>, g: int)
    ensures EnsuredAll(d, guilds + [g]) == Ensured(EnsuredAll(d, guilds), g)
    decreases |guilds|
  {
    if guilds == [] {
      assert [] + [g] == [g];
    } else {
      assert (guilds + [g])[1..] == guilds[1..] + [g];
      EnsuredAllSnoc(Ensured(d, guilds[0]), guilds[1..], g);
    }
  }

  /** A rebuild throws away everything before it, earlier `extra` notes
      included: rebuilding twice is rebuilding once with the second rows,
      and rebuilding with no messages leaves the header alone. */
  lemma RebuildDiscardsPrior(d: Disk, g: int, first: seq<Row>, second: seq<Row>)
    ensures Rebuilt(Rebuilt(d, g, first), g, second) == Rebuilt(d, g, second)
    ensures Rebuilt(d, g, [])[CsvPath(g)] == [HEADER]
  {
  }

  /** After `/scrap` the ledger is the header and one `[text, ats, ""]` row
      per history message, in delivery order. */
  lemma ScrapRows(d: Disk, g: int, history: seq<Message>)
    ensures |Rebuilt(d, g, ScrapedRows(history))[CsvPath(g)]| == |history| + 1
    ensures forall i :: 0 <= i < |history| ==>
      Rebuilt(d, g, ScrapedRows(history))[CsvPath(g)][i + 1]
        == [TextField(history[i].content), MentionsField(history[i].mentionNames), ""]
  {
    var r := Rebuilt(d, g, ScrapedRows(history))[CsvPath(g)];
    forall i | 0 <= i < |history|
      ensures r[i + 1] == [TextField(history[i].content), MentionsField(history[i].mentionNames), ""]
    {
      assert r[i + 1] == r[1..][i];
    }
  }

  /** Two appends in a row are one append of both batches. */
  lemma AppendedTwice(d: Disk, g: int, a: seq<Row>, b: seq<Row>)
    ensures Appended(Appended(d, g, a), g, b) == Appended(d, g, a + b)
  {
    var p := CsvPath(g);
    var e := Ensured(d, g);
    assert e[p] + a + b == e[p] + (a + b);
  }

  /** Appends never move or change earlier rows: after n >= 1 uses of the
      form the ledger is what it was (or the header) followed by the n rows,
      in call order. */
  lemma {:induction false} AddsInCallOrder(d: Disk, g: int, adds: seq<(Message, Option<string>)>)
    requires adds != []
    ensures AddedAll(d, g, adds) == Appended(d, g, AddedRows(adds))
    decreases |adds|
  {
    var first := [AddedRow(adds[0].0, adds[0].1)];
    var next := Appended(d, g, first);
    assert AddedAll(d, g, adds) == AddedAll(next, g, adds[1..]);
    if |adds| == 1 {
      assert AddedRows(adds) == first;
    } else {
      assert AddedRows(adds) == first + AddedRows(adds[1..]);
      AddsInCallOrder(next, g, adds[1..]);
      AppendedTwice(d, g, first, AddedRows(adds[1..]));
    }
  }

  /** `/from_file` with a name not ending in `.csv` changes nothing; otherwise the
      ledger becomes its old rows (or the header) followed by every uploaded
      row but the first, verbatim and in order. */
  lemma FromFileEffect(d: Disk, g: int, filename: string, upload: seq<Row>)
    ensures !EndsWithCsv(filename) ==> FromFileDisk(d, g, filename, upload) == d
    ensures EndsWithCsv(filename) ==>
      FromFileDisk(d, g, filename, upload)[CsvPath(g)] == Ensured(d, g)[CsvPath(g)] + UploadBody(upload)
    ensures EndsWithCsv(filename) && upload == [] ==> FromFileDisk(d, g, filename, upload) == Ensured(d, g)
    ensures EndsWithCsv(filename) && upload != [] ==>
      |FromFileDisk(d, g, filename, upload)[CsvPath(g)]| == |Ensured(d, g)[CsvPath(g)]| + |upload| - 1
  {
    if EndsWithCsv(filename) && upload == [] {
      var e := Ensured(d, g);
      assert e[CsvPath(g)] + [] == e[CsvPath(g)];
    }
  }

  /** Importing an upload of a header and one row into a ledger with two rows
      leaves those two rows first and the imported row third. */
  lemma ImportScenario(d: Disk, g: int, filename: string, r1: Row, r2: Row, row: Row)
    requires EndsWithCsv(filename)
    requires CsvPath(g) in d && d[CsvPath(g)] == [HEADER, r1, r2]
    ensures FromFileDisk(d, g, filename, [HEADER, row])[CsvPath(g)] == [HEADER, r1, r2, row]
  {
    assert [HEADER, row][1..] == [row];
  }

  // ---------------------------------------------------------------------
  // The store the commands write through
  // ---------------------------------------------------------------------

  class LedgerStore {
    var files: Disk

    constructor (initial: Disk)
      ensures files == initial
    {
      files := initial;
    }

    /** `ensure_csv_exists(guild_id)`. */
    method Ensure(g: int)
      modifies this
      ensures files == Ensured(old(files), g)
      ensures WellFormed(old(files)) ==> WellFormed(files)
    {
      var path := CsvPath(g);
      if path !in files {
        files := files[path := [HEADER]];
      }
      if WellFormed(old(files)) { WellFormedKept(old(files), g, []); }
    }

    /** `on_ready`'s loop over the guilds the bot is in. */
    method OnReady(guilds: seq<int>)
      modifies this
      ensures files == EnsuredAll(old(files), guilds)
      ensures WellFormed(old(files)) ==> WellFormed(files)
    {
      ghost var start := files;
      for i := 0 to |guilds|
        invariant files == EnsuredAll(start, guilds[..i])
      {
        assert guilds[..i + 1] == guilds[..i] + [guilds[i]];
        EnsuredAllSnoc(start, guilds[..i], guilds[i]);
        Ensure(guilds[i]);
      }
      assert guilds[..|guilds|] == guilds;
      if WellFormed(start) { WellFormedKeptByEnsuredAll(start, guilds); }
    }

    /** One `writer.writerow(row)` per row, at the end of an existing file. */
    method WriteRows(path: string, rows: seq<Row>)
      requires path in files
      modifies this
      ensures files == old(files)[path := old(files)[path] + rows]
    {
      ghost var start := files;
      assert start[path] + rows[..0] == start[path];
      assert start[path := start[path]] == start;
      for i := 0 to |rows|
        invariant files == start[path := start[path] + rows[..i]]
      {
        assert files[path] + [rows[i]] == start[path] + rows[..i + 1] by {
          assert rows[..i + 1] == rows[..i] + [rows[i]];
        }
        files := files[path := files[path] + [rows[i]]];
      }
      assert rows[..|rows|] == rows;
    }

    /** `/scrap`: collect one row per history message, then rewrite the ledger. */
    method Scrap(g: int, history: seq<Message>)
      modifies this
      ensures files == Rebuilt(old(files), g, ScrapedRows(history))
      ensures WellFormed(old(files)) ==> WellFormed(files)
    {
      Ensure(g);
      var path := CsvPath(g);
      var rows: seq<Row> := [];
      for i := 0 to |history|
        invariant |rows| == i
        invariant forall j :: 0 <= j < i ==> rows[j] == ScrapedRow(history[j])
      {
        var e := ExtractMentions(history[i]);
        rows := rows + [[e.text, e.ats, ""]];
      }
      assert rows == ScrapedRows(history);
      assert files == Ensured(old(files), g);
      files := files[path := [HEADER] + rows];
      if WellFormed(old(files)) { WellFormedKept(old(files), g, rows); }
    }

    /** `/download`: ensure the ledger and hand back its rows. */
    method Download(g: int) returns (rows: seq<Row>)
      modifies this
      ensures files == Ensured(old(files), g)
      ensures rows == files[CsvPath(g)]
    {
      Ensure(g);
      rows := files[CsvPath(g)];
    }

    /** `/from_file`: refuse a non-`.csv` name; otherwise skip the first
        uploaded row and append the others. */
    method FromFile(g: int, filename: string, upload: seq<Row>) returns (outcome: ImportOutcome)
      modifies this
      ensures outcome == (if EndsWithCsv(filename) then Imported else NotCsv)
      ensures files == FromFileDisk(old(files), g, filename, upload)
      ensures WellFormed(old(files)) ==> WellFormed(files)
    {
      if !EndsWithCsv(filename) {
        return NotCsv;
      }
      Ensure(g);
      var body := if upload == [] then [] else upload[1..];
      WriteRows(CsvPath(g), body);
      if WellFormed(old(files)) { WellFormedKept(old(files), g, body); }
      return Imported;
    }

    /** The "Add to CSV" form's `on_submit`: append one `[text, ats, extra]` row. */
    method AddToCsv(g: int, m: Message, value: Option<string>)
      modifies this
      ensures files == Appended(old(files), g, [AddedRow(m, value)])
      ensures WellFormed(old(files)) ==> WellFormed(files)
    {
      var e := ExtractMentions(m);
      var extra := if value.Some? && value.value != "" then value.value else "";
      Ensure(g);
      WriteRows(CsvPath(g), [[e.text, e.ats, extra]]);
      if WellFormed(old(files)) { WellFormedKept(old(files), g, [AddedRow(m, value)]); }
    }
  }
}
