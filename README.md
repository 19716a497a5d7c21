# quoter: the per-guild quote ledgers

The quoter Discord bot keeps one CSV file per guild, named after the guild
id (`<guild_id>.csv`), with the header row `message,mentions,extra`. Its
commands fill that ledger: `/scrap` rewrites it from the channel history,
`/from_file` appends the rows of an uploaded CSV, the "Add to CSV" message
menu appends one row, `/download` hands the file back, and on start-up the
bot makes sure every guild it is in has a ledger. Each stored message is
reduced by `extract_mentions` to two columns: its text with every inline
user mention `<@123>` / `<@!123>` removed and the ends stripped, and the
mentioned users' names as `@name` joined with commas.

This project models that core in Dafny:

- `csv_names.dfy` — module `Chars` (the digit and whitespace classes) and
  module `CsvNames`: the decimal rendering of a guild id, `csv_path`, and a
  parser `GuildOfPath` that reads a guild id back from a file name. The
  round trip proves that `csv_path` is injective.
- `mentions.dfy` — module `Mentions`: `extract_mentions`. The pattern
  `<@!?\d+>` is a predicate `IsToken` on strings. The left-to-right scan
  `Scan` cuts the text into kept characters and removed matches, and it is
  proved to be the unique leftmost, non-overlapping decomposition, which is
  what one pass of `re.sub` performs. `Strip` is `str.strip()` over Python's
  whitespace set, and the mentions column is the comma join.
- `ledger.dfy` — module `Ledger`: the working directory as a map from file
  name to parsed rows. Each operation is a function from the files before
  to the files after (`Ensured`, `Rebuilt`, `Appended`, `EnsuredAll`,
  `FromFileDisk`, `AddedAll`). The class `LedgerStore` holds the files in a
  mutable field, and its methods (`Ensure`, `OnReady`, `Scrap`, `Download`,
  `FromFile`, `AddToCsv`) update it as the source updates the files:
  `FromFile` and `AddToCsv` append row by row through `WriteRows`, `Scrap`
  builds its rows in a loop and then replaces the file, and `OnReady`
  ensures one guild per iteration. Each method is proved to produce
  exactly the function's result. The header invariant `WellFormed` says
  every file is a guild's ledger that starts with the header row, and
  every operation preserves it.

The mention removal is single-pass and only the ends are stripped. So
`"hello <@123> world"` with mention list `["alice"]` becomes
`("hello  world", "@alice")`, with two spaces (`Mentions.InnerSpacesKept`).

## Model

| member | source | states |
|---|---|---|
| Chars.IsSpace | main.py:34 | the characters `strip()` removes: among ASCII exactly TAB, LF, VT, FF, CR, FS..US and SPACE; none of them is a digit, `<`, `@` or `>` |
| CsvNames.EndsWithCsv | main.py:101 | `filename.endswith(".csv")`: the last four characters are `.csv`; it holds of every ledger name (`CsvPathEndsWithCsv`) |
| CsvNames.CsvPath | main.py:20-21 | `csv_path`: the decimal text of the guild id followed by `.csv`; its inverse is `GuildOfPath` (`CsvPathInverse`) |
| CsvNames.NatTextCanonical | main.py:21 | the decimal text of a natural number has no leading zero and reads back as that number |
| CsvNames.IntTextParse | main.py:21 | parsing a string gives guild id g exactly when the string is `f"{g}"`, in both directions |
| CsvNames.CsvPathInverse | main.py:20-21 | a file name is guild g's ledger exactly when `GuildOfPath` reads g from it |
| CsvNames.CsvPathInjective | main.py:20-21 | two different guilds never share a ledger file |
| CsvNames.CsvPathEndsWithCsv | main.py:21 | every ledger name ends in `.csv` |
| Mentions.TokenLen | main.py:34 | a match found at the front has length at least 4, starts with `<@` and ends with `>` |
| Mentions.TokenLenIsMatch | main.py:34 | the scanner's match at the front of a string is a match of `<@!?\d+>`, it is the only one there, and it finds none exactly when the pattern has none |
| Mentions.TokenPrefixLen | main.py:34 | any prefix matching `<@!?\d+>` has the scanner's length |
| Mentions.Scan | main.py:34 | the pieces spell the input and form a leftmost, non-overlapping decomposition into kept characters and matches |
| Mentions.ScanUnique | main.py:34 | that decomposition is unique, so the removal is the one `re.sub` performs |
| Mentions.RemoveTokens | main.py:34 | removing mentions never lengthens the text |
| Mentions.RemoveTokensKeepsPlain | main.py:34 | text with no `<` passes through the removal unchanged and does not affect what follows |
| Mentions.RemoveTokensKeepsChar | main.py:34 | a character where no match starts is kept |
| Mentions.RemoveTokensDropsToken | main.py:34 | a mention token at the front is removed entirely |
| Mentions.ExampleSinglePass | main.py:34 | the substitution is one pass: `<@<@1>1>` becomes `<@1>`, and the mention it creates survives |
| Mentions.StripBounds | main.py:34 | the strip bounds cut off only whitespace on each side and leave a slice with no whitespace at either end |
| Mentions.Strip | main.py:34 | the stripped text is no longer than the input and has no leading or trailing whitespace |
| Mentions.StripKeepsTrimmed | main.py:34 | stripping text with non-space ends changes nothing |
| Mentions.StripIdempotent | main.py:34 | stripping twice is stripping once |
| Mentions.MentionsField | main.py:33-35 | the mentions column is empty exactly when the mention list is empty |
| Mentions.MentionsFieldSplits | main.py:33-35 | when no name holds a comma, splitting the column on commas gives back `@name` for each mentioned user, in mention-list order |
| Mentions.TextField | main.py:34 | the text column is no longer than the message and has no whitespace at either end |
| Mentions.ExtractMentions | main.py:32-35 | both column properties together: the text is no longer than the content and is trimmed; the mentions column is empty exactly when nobody is mentioned |
| Mentions.ColumnsIndependent | main.py:32-35 | the mentions column depends only on the mention list, and the text column only on the content |
| Mentions.InnerSpacesKept | main.py:32-35 | a mention between two words is removed and the spaces on both sides of it stay |
| Ledger.Ensured | main.py:24-29 | ensuring adds the guild's file if missing, with only the header row, and keeps every existing file as it was |
| Ledger.EnsureIdempotent | main.py:24-29 | ensuring twice is ensuring once; a fresh ledger holds exactly the header |
| Ledger.OtherGuildsUntouched | main.py:20-29 | ensuring, rewriting or appending for one guild leaves every other guild's ledger as it was, present or absent |
| Ledger.WellFormedKept | main.py:24-29 | ensuring, rewriting and appending keep every file a guild ledger that starts with the header |
| Ledger.Rebuilt | main.py:72-75 | after a rewrite the ledger is the header followed by exactly the given rows, and other files are unchanged |
| Ledger.Appended | main.py:167-169 | an append leaves the existing rows (or a fresh header) first, adds the new rows after them, and changes no other file |
| Ledger.EnsuredAll | main.py:43-44 | the start-up loop keeps every existing file and its rows |
| Ledger.EnsuredAllEffect | main.py:43-44 | after start-up every guild has a ledger, files that existed are unchanged, and every new file holds only the header |
| Ledger.WellFormedKeptByEnsuredAll | main.py:43-44 | the start-up loop keeps the header invariant |
| Ledger.EnsuredAllSnoc | main.py:43-44 | the loop over one more guild is the loop over the earlier guilds followed by ensuring that guild |
| Ledger.ScrapedRow | main.py:68-69 | a scraped row has three columns: a trimmed text no longer than the message, a mentions column empty exactly when nobody is mentioned, and an empty `extra` |
| Ledger.RebuildDiscardsPrior | main.py:65-75 | `/scrap` discards every earlier row, `extra` notes included; with no history it leaves only the header |
| Ledger.ScrapRows | main.py:65-75 | after `/scrap` the ledger has one row per history message after the header, in history order, each `[text, ats, ""]` |
| Ledger.AppendedTwice | main.py:167-169 | two appends in a row equal one append of both batches |
| Ledger.AddsInCallOrder | main.py:157-169 | n uses of "Add to CSV" leave the old rows untouched followed by the n new rows in call order |
| Ledger.ExtraText | main.py:160 | the `extra` column is empty exactly when the form field is unset or empty, and otherwise is the field's text |
| Ledger.AddedRow | main.py:157-169 | a form row has three columns: a trimmed text no longer than the message, a mentions column empty exactly when nobody is mentioned, and an `extra` empty exactly when the field is unset or empty |
| Ledger.UploadBody | main.py:123-125 | the imported rows are the upload minus its first row, each one copied verbatim and in order; an empty upload gives none |
| Ledger.FromFileDisk | main.py:101-125 | a non-`.csv` name leaves every file as it was; otherwise only the guild's ledger is created or changed |
| Ledger.FromFileEffect | main.py:101-125 | a non-`.csv` name changes nothing; otherwise the ledger gets every uploaded row but the first, in order; an empty upload appends nothing |
| Ledger.ImportScenario | main.py:117-125 | importing a header and one row into a two-row ledger puts the row third |
| Ledger.LedgerStore.Ensure | main.py:24-29 | `ensure_csv_exists` changes the files exactly as `Ensured` says and keeps the header invariant |
| Ledger.LedgerStore.OnReady | main.py:43-44 | the start-up loop leaves the files as `EnsuredAll` over the guild list, in order |
| Ledger.LedgerStore.WriteRows | main.py:124-125 | writing rows one at a time leaves the file's old rows followed by the given rows, and changes no other file |
| Ledger.LedgerStore.Scrap | main.py:61-75 | `/scrap` leaves the files as a rewrite with one scraped row per history message, and keeps the header invariant |
| Ledger.LedgerStore.Download | main.py:87-96 | `/download` only ensures the ledger, and hands back exactly its current rows |
| Ledger.LedgerStore.FromFile | main.py:101-125 | `/from_file` refuses a non-`.csv` name without writing anything, and otherwise appends the upload minus its first row |
| Ledger.LedgerStore.AddToCsv | main.py:157-169 | "Add to CSV" appends exactly one `[text, ats, extra]` row, with `extra` empty when the field is empty or unset |

## Left out

- The Discord SDK, the event loop and `async`: guild ids, channel history, mention lists, uploads and form values are parameters.
- `bot.tree.sync()` and every `print`: they do not touch the ledgers.
- The replies sent to the user. `/download`'s file send is modelled as returning the ledger's rows.
- CSV byte encoding: files are modelled as `csv.reader` rows, not as bytes. So quoting, newlines inside fields and the UTF-8 encoding are not modelled.
- The `upload_temp.csv` file that `/from_file` writes and deletes. Its only effect on the ledger is the rows it yields.
- Concurrency: two commands for one guild running at once on the same file.
- Mentions.IsToken: `\d` is taken as ASCII `0`-`9`. Python's `\d` also matches the other Unicode decimal digits.
- Chars.IsSpace: `str.strip()`'s whitespace set is listed for the characters a `char` holds. No Unicode normalisation is done.
- Files in the working directory that are not ledgers: the header invariant `WellFormed` assumes every file is some guild's ledger.
- Error paths: exceptions from file I/O, from decoding an upload and from the Discord SDK are not modelled, and every operation runs to completion. Two partial effects of the source are therefore absent. In `/from_file`, a `csv.Error` or `UnicodeDecodeError` raised part-way through the row loop (main.py:124-125) leaves the rows already written in the ledger and the temporary file in place (main.py:127); `Ledger.FromFileEffect` and `Ledger.LedgerStore.FromFile` describe an all-or-nothing append. In `/scrap`, the ledger is ensured (main.py:62) before the history is read (main.py:67), so a failed history read leaves the ledger created but not rewritten; `Ledger.LedgerStore.Scrap` has no failure case.
- A missing guild (`interaction.guild` is `None` in a direct message): the model takes the guild id as given.
