# Hourly labour cost: ingestion, worker IDs and the cost database

This project models the core of a tool that reads payroll documents and
computes each worker's hourly labour cost. Three pieces are modelled.

- **The worker ID.** `PDFProcessor.generar_id` builds a short code from a
  worker's full name. That code is the key that joins income rows to
  contribution rows.
- **The cost database.** The `Database` object owns four PostgreSQL tables:
  - `workers`: income statements;
  - `contingencias_comunes`: contribution bases;
  - `convenio`: the annual hours of the collective agreement;
  - `cargas_sociales`: social-charge percentages.

  Its write statements are insert-or-ignore on a unique key, and
  `create_tables` seeds four fixed charges. `get_workers_data` aggregates one
  row per (worker_id, year, worker_name) with the hourly cost
  `(income + (base / 12) * (charges / 100)) / hours`. The name is part of
  the group key, so one worker_id written with two spellings of the name in
  the same year gives two rows.
- **The ingestion loop.** `ChatBot.process_uploaded_files` saves the
  uploads, classifies each file and extracts structured data page by page.
  It routes each page to one of the insert methods, keeping `doc_type` and
  `aux_year` across pages and files. It returns a log with one line per
  page that completed and one line per file whose classification raised.

Modules:

- `Wrappers`: `Option` and `Result`.
- `PyText`: the Python string built-ins the ID derivation uses: `isspace`,
  `upper`, `strip()`, `split()` and the slice `[:n]`.
- `WorkerId`: `generar_id`.
- `FactTables`: the tables as values, with one function per write statement
  and the table invariant.
- `Store`: the `Database` class. Its tables are fields, and its methods
  update them in place, each proved against the matching `FactTables`
  function.
- `CostQuery`: `get_workers_data` and `get_all_workers`, as functions of the
  tables.
- `Ingestion`: what `process_uploaded_files` does to the tables and the log.
  This is a fold over files and pages, with lemmas about it.
- `ChatBot`: `process_uploaded_files` as the nested loops it is. The loops
  call the `Database` methods and are proved to compute the fold.

Python exceptions are modelled as values:

- `generar_id` returns `Err(IndexError)` where `nombre[0]` raises.
- A query on dropped tables returns `Err(UndefinedTable)`.
- A zero divisor gives `Err(DivisionByZero)`.
- An insert on a dropped table reports `ok == false` and changes nothing.

Inside the ingestion loop, an exception ends the page without its log line.
Inserts issued before the exception stay committed.

## How `generar_id` reads a name

- **With one or two tokens and no comma, the code is the first three
  characters of the normalised name**, space included: `"Jose Garcia"` gives
  `"JOS"` (`WorkerId.ShortNameFallback`).
- **With three or more tokens and no comma, the last token is the given
  name.** The tokens before it are surnames. A name written given-name-first is therefore cut the
  other way round: `"Jose Garcia Fontecha"` gives `"JOGAF"`, not `"GAFOJ"`,
  and `"Ana Lopez Ruiz"` gives `"ANLOR"`, not `"LORUA"`. The same person
  written surname-first gets a different code. `WorkerId.JoseGarciaFontecha`
  and `WorkerId.AnaLopezRuiz` state both codes.
- **The derivation is not total.** A comma form with two or more surnames
  and nothing after the comma raises `IndexError`; `WorkerId.FailsExactly`
  states exactly when. A name that is just a comma, `","`, yields the empty
  code, so a non-empty name can give an empty code.

## Model

| member | source | states |
|---|---|---|
| WorkerId.GenerarId | app/pdf_preprocessor.py:11-32 | when no exception is raised, the code has at most five characters |
| WorkerId.FirstComma | app/pdf_preprocessor.py:16 | `split(',', 1)` cuts at a comma with no comma before it |
| WorkerId.Segment | app/pdf_preprocessor.py:14-23 | the fallback is taken exactly when there is no comma and fewer than three words, and keeps the whole name; every surname is a non-empty word without whitespace; without a comma there are at least two surnames and the given name is one such word |
| WorkerId.Code | app/pdf_preprocessor.py:25-32 | the code built from surnames and given name has at most five characters |
| WorkerId.GenerarIdIgnoresCase | app/pdf_preprocessor.py:12 | the code of the upper-cased name equals the code of the name |
| WorkerId.GenerarIdIgnoresPadding | app/pdf_preprocessor.py:12 | whitespace before and after the name does not change the code |
| WorkerId.ShortNameFallback | app/pdf_preprocessor.py:19-21 | without a comma and with fewer than three tokens, the code is the first three characters of the normalised name, spaces included |
| WorkerId.EmptyName | app/pdf_preprocessor.py:12-21 | the empty name gives the empty code |
| WorkerId.ThreeOrMoreTokens | app/pdf_preprocessor.py:19-26 | without a comma and with three or more tokens, the code is two letters of each of the first two tokens plus the first letter of the last token |
| WorkerId.CommaForm | app/pdf_preprocessor.py:15-32 | with a comma: no surname gives three letters of the given name; one surname gives two plus two; two or more give two plus two plus one; two or more with an empty given name raise |
| WorkerId.FailsExactly | app/pdf_preprocessor.py:15-32 | the derivation raises if and only if there is a comma, two or more words before the first comma, and only whitespace after it |
| WorkerId.CodeLength | app/pdf_preprocessor.py:25-30 | a built code has five characters if and only if there are two surnames of two or more letters and a non-empty given name |
| WorkerId.FullLengthCode | app/pdf_preprocessor.py:15-32 | the code has five characters if and only if the name splits into two surnames of two or more letters and a non-empty given name; the fallback never reaches five |
| WorkerId.JoseGarciaFontecha | app/pdf_preprocessor.py:12-32 | `generar_id("Jose Garcia Fontecha")` is `"JOGAF"`: the last token is the given name |
| WorkerId.AnaLopezRuiz | app/pdf_preprocessor.py:12-32 | `generar_id("Ana Lopez Ruiz")` is `"ANLOR"` |
| WorkerId.CodeOfUpper | app/pdf_preprocessor.py:32 | on upper-case pieces the final `upper()` changes nothing, so each branch's code is its slices as they are |
| PyText.Upper | app/pdf_preprocessor.py:12 | upper-casing keeps the length and maps each character on its own |
| PyText.UpperIdempotent | app/pdf_preprocessor.py:12 | upper-casing twice is upper-casing once |
| PyText.Take | app/pdf_preprocessor.py:21 | `s[:n]` is the prefix of length `min(n, len(s))` |
| PyText.TrimLeft | app/pdf_preprocessor.py:12 | `lstrip()` is a suffix of the input, and exactly the leading whitespace is removed |
| PyText.TrimRight | app/pdf_preprocessor.py:12 | `rstrip()` is a prefix of the input, and exactly the trailing whitespace is removed |
| PyText.StripPadded | app/pdf_preprocessor.py:12 | `strip()` ignores any whitespace around its argument |
| PyText.Words | app/pdf_preprocessor.py:17 | `split()` yields non-empty words without whitespace |
| PyText.NoWords | app/pdf_preprocessor.py:17 | `split()` yields no word exactly when the string is all whitespace |
| PyText.WordsAtSpace | app/pdf_preprocessor.py:17-19 | `split()` cuts at every whitespace character: the words of `a + [c] + b`, with `c` whitespace, are the words of `a` followed by the words of `b` |
| PyText.WordsSingle | app/pdf_preprocessor.py:17-19 | a non-empty run without whitespace is exactly one word; with `WordsAtSpace` and `NoWords` this fixes `split()` on every input |
| PyText.WordsOfStrip | app/pdf_preprocessor.py:16-17 | `s.strip().split() == s.split()` |
| PyText.WordsOfUpper | app/pdf_preprocessor.py:12-19 | the words of an upper-case string are upper-case |
| PyText.JoinRoundTrip | app/pdf_preprocessor.py:19 | joining words without whitespace by spaces and splitting again gives the words back |
| FactTables.AddWorker | app/database.py:99-107 | on dropped tables nothing changes; otherwise the key (worker_id, company_id, year) is stored afterwards; rows are only appended, at most one; no other table changes |
| FactTables.AddContribution | app/database.py:122-135 | on dropped tables nothing changes; otherwise the row is stored afterwards; rows are only appended, at most one; no other table changes |
| FactTables.AddConvenio | app/database.py:150-158 | on dropped tables nothing changes; otherwise the year is stored afterwards; rows are only appended, at most one; no other table changes |
| FactTables.CreateTables | app/database.py:35-93 | the tables exist afterwards; existing tables keep their rows and only the charges can grow; missing fact tables start empty |
| FactTables.CreateTablesSeeded | app/database.py:35-93 | whatever the state before, every seed charge's name is stored afterwards |
| FactTables.AddCargasCovers | app/database.py:86-92 | after the multi-row charge insert, every name it carries is stored, by this statement or an earlier one |
| FactTables.AddWorkerSpec | app/database.py:104-107 | the first row written under (worker_id, company_id, year) wins; other keys read back as before; at most one row is appended; no other table changes |
| FactTables.AddWorkerKeepsValid | app/database.py:50 | inserting a worker keeps (worker_id, company_id, year) unique |
| FactTables.AddContributionSpec | app/database.py:127-135 | a row equal to a stored one on all seven columns changes nothing; any other row is appended; no other table changes |
| FactTables.AddContributionKeepsValid | app/database.py:64 | inserting a contribution keeps the seven-column key unique |
| FactTables.AddConvenioSpec | app/database.py:155-159 | a year keeps the hours first written for it; other years read back as before; no other table changes |
| FactTables.AddConvenioKeepsValid | app/database.py:73 | inserting a convenio row keeps the year unique |
| FactTables.SeedsFacts | app/database.py:86-93 | the seed is four charges with distinct names that add up to 31.40 |
| FactTables.AddCargasFresh | app/database.py:86-92 | charges with distinct names that are not yet stored are all appended, in order |
| FactTables.AddCargasKeepsPresent | app/database.py:92 | charges whose names are already stored change nothing |
| FactTables.SeedsIntoNothing | app/database.py:86-93 | seeding an empty charge table stores exactly the four seeds |
| FactTables.CreateTablesRerun | app/database.py:35-97 | running `create_tables` on existing valid tables changes nothing |
| FactTables.CreateTablesKeepsRows | app/database.py:42-93 | `create_tables` keeps every stored row and yields valid, existing tables |
| FactTables.CleanThenCreate | app/database.py:19-97 | after `clean_database` and `create_tables`, the four seeds are the only rows |
| Store.Database.CleanDatabase | app/database.py:19-33 | all four tables are dropped and nothing is stored |
| Store.Database.CreateTables | app/database.py:35-97 | the new state is `FactTables.CreateTables` of the old; the tables exist and stay valid; the three fact tables are untouched |
| Store.Database.InsertWorker | app/database.py:99-120 | the new state is `AddWorker` of the old; the insert succeeds exactly when the tables exist; the invariant is kept |
| Store.Database.InsertContingenciasComunes | app/database.py:122-148 | the new state is `AddContribution` of the old; the insert succeeds exactly when the tables exist; the invariant is kept |
| Store.Database.InsertConvenio | app/database.py:150-163 | the new state is `AddConvenio` of the old; the insert succeeds exactly when the tables exist; the invariant is kept |
| CostQuery.WorkersData | app/database.py:165-203 | on dropped tables it raises undefined table; on existing tables it succeeds if and only if the row of every `workers` row's group does; it returns at most as many rows as `workers` holds |
| CostQuery.AllWorkers | app/database.py:205-225 | on dropped tables it raises undefined table; on success it returns the `workers` rows as stored, at most one period row per contribution row and at most one cost row per `workers` row |
| CostQuery.Distinct | app/database.py:197 | the groups are each key of the input exactly once |
| CostQuery.Rows | app/database.py:182-198 | the query succeeds if and only if every group's row does; row `i` is the row of group `i` |
| CostQuery.OneRowPerGroup | app/database.py:182-197 | `get_workers_data` yields one row per distinct (worker_id, year, worker_name), each the aggregate of its group |
| CostQuery.RowsCoverWorkers | app/database.py:191-197 | every `workers` row has its group's row in the output, and every output row comes from some `workers` row |
| CostQuery.BaseSumNone | app/database.py:176-180 | the summed base is NULL if and only if no contribution row has that worker and year |
| CostQuery.CostOfRow | app/database.py:173-196 | a row's cost is NULL if and only if its year has no convenio row, or its worker and year have no contribution, or there are no charges; its base is NULL if and only if there is no contribution; otherwise the cost is `(income + (base / 12) * (charges / 100)) / hours` with non-zero hours |
| CostQuery.DivisionByZeroFrom | app/database.py:190 | a worker whose year has zero hours, with a contribution and some charges, makes the whole query raise division by zero |
| CostQuery.DivisionByZeroOnlyFrom | app/database.py:165-198 | on existing tables the query raises only division by zero, and only from such a worker |
| CostQuery.SeededPercentage | app/database.py:173-188 | on valid tables every row's percentage column is 0.314 |
| CostQuery.UnmatchedContributionIgnored | app/database.py:194-196 | a contribution row whose worker and year match no worker row changes no output |
| CostQuery.ExtraCompanyAddsIncomeOnly | app/database.py:176-197 | another income row in a group adds its income to the group's row and leaves its base, percentage and hours unchanged: the base is counted once per worker and year |
| CostQuery.AllWorkersParts | app/database.py:205-225 | `get_all_workers` fails exactly when `get_workers_data` does, with the same error; otherwise it returns the `workers` rows as stored, one period row per distinct (worker_id, periodo) of the contributions holding the sum of that key's bases, and one cost row per distinct (worker_id, year, worker_name) of `workers` holding that group's aggregate |
| CostQuery.PeriodSumsGroup | app/database.py:213 | the period grouping has a row for every contribution's (worker_id, periodo) and no other |
| CostQuery.PeriodSumsBase | app/database.py:213 | the period rows have distinct keys, and each holds the sum of its bases over every company and year |
| CostQuery.PeriodSumsTotal | app/database.py:213 | the period sums add up to the total of all bases: none is lost or counted twice |
| Ingestion.SavedFiles | app/chatbot.py:99-105 | every uploaded name is in the temporary directory |
| Ingestion.Names | app/chatbot.py:100-105 | the saved paths are the upload names in order, duplicates included |
| Ingestion.SavedIsLast | app/chatbot.py:101-105 | a name uploaded twice reads back as its last upload |
| Ingestion.Route | app/chatbot.py:114-165 | with no `doc_type` bound or a failed extraction a page issues nothing and does not complete; only a convenio page can change `aux_year`; only an rnt page can issue more than one insert |
| Ingestion.RunPage | app/chatbot.py:114-168 | a page never changes `doc_type`, adds at most its own log line, changes `aux_year` only on a convenio page, and stores nothing on dropped tables |
| Ingestion.Ingest | app/chatbot.py:95-170 | every line of the returned log names an uploaded file |
| Ingestion.FilesLog | app/chatbot.py:107-168 | the files of a batch only append to the log, and every line they add names one of them |
| Ingestion.ApplyAllGrows | app/chatbot.py:121-163 | a page's inserts keep every earlier row, leave each of their own inserts absorbed, and keep the invariant |
| Ingestion.IngestOnlyAdds | app/chatbot.py:95-170 | processing a batch keeps every stored row and the table invariant |
| Ingestion.IngestIdempotent | app/chatbot.py:95-170 | uploading the same batch again, with the same classification and extraction results, changes no table and yields the same log |
| Ingestion.PagesLog | app/chatbot.py:114-165 | a file's pages add only their own page lines, numbered within the page count, in increasing order |
| Ingestion.PageLineIff | app/chatbot.py:114-168 | page `k` has a log line if and only if it completes in the state the earlier pages left |
| Ingestion.UnboundDocTypePages | app/chatbot.py:110-116 | with no `doc_type` bound yet, every page raises: nothing is stored or logged |
| Ingestion.UnclassifiedFirstFile | app/chatbot.py:110-116 | a first file whose classification raises yields only its error line |
| Ingestion.StaleDocType | app/chatbot.py:110-113 | a file whose classification raises is processed with the previous file's type, and adds its error line before its page lines |
| Ingestion.FailedExtraction | app/chatbot.py:115-116 | a page whose extraction raises changes nothing |
| Ingestion.WorkerPage | app/chatbot.py:117-128 | a modelo_190 or 10t page with every column set stores one worker row keyed by `generar_id` of its name, and is logged when the tables exist |
| Ingestion.WorkerPageFails | app/chatbot.py:117-128 | such a page with a missing or `None` column, or a name `generar_id` rejects, changes nothing |
| Ingestion.RntInsertsSpec | app/chatbot.py:130-140 | an rnt list issues one contribution insert per entry, in order, up to the first entry that raises |
| Ingestion.RntPage | app/chatbot.py:130-140 | an rnt page stores those rows, which persist even if a later entry raises; it is logged if and only if no entry raises and, if it inserts, the tables exist; `aux_year` is kept |
| Ingestion.ConvenioPage | app/chatbot.py:141-163 | a convenio page with hours stores them under its own year or else under `aux_year`, which any "year" key replaces; a `None` or unbound year stores nothing and is not logged |
| Ingestion.ConvenioPageNoHours | app/chatbot.py:141-165 | a convenio page without hours stores nothing, is logged, and still updates `aux_year` |
| Ingestion.OtherPage | app/chatbot.py:117-165 | a page whose type is none of the four handled labels stores nothing and is logged, once its name passes `generar_id` |
| ChatBot.ProcessUploadedFiles | app/chatbot.py:95-170 | the tables afterwards and the returned log are those of `Ingest`; the invariant is kept |
| ChatBot.SaveUploads | app/chatbot.py:99-105 | the directory and the saved paths are `SavedFiles` and `Names` of the uploads |
| ChatBot.ProcessFile | app/chatbot.py:107-168 | classifying a file and running its pages is `RunFile` of the loop state |
| ChatBot.ProcessPage | app/chatbot.py:115-168 | one page applies the inserts of `Route`, returns its new `aux_year`, and reaches its log line exactly as `Route` says |
| ChatBot.ProcessWorker | app/chatbot.py:117-128 | a worker page applies the inserts of `WorkerRoute` and is logged exactly when it completes |
| ChatBot.ProcessRnt | app/chatbot.py:130-140 | the entry loop applies `RntInserts` and is logged exactly when no entry raises and the tables exist or nothing was inserted |
| ChatBot.ProcessConvenio | app/chatbot.py:141-163 | a convenio page applies the inserts of `ConvenioRoute`, returns its `aux_year`, and is logged exactly when it completes |

## Left out

- PDF text extraction (`extract_text_from_pdf`, `extract_text_by_page`), the
  LLM document classifier and the structured-data extractor. Each upload
  arrives with its classification result (a type, or the message it
  raised) and, per page, the extractor's result (a failure, a dict or a
  list). The model does not check what those calls compute.
- `Ingestion.IngestIdempotent` compares two uploads that carry the same
  classification and extraction results. The real classifier and extractor
  are language-model calls and can answer a second upload differently; the
  lemma says nothing about that case.
- The two text-extraction calls run outside any `try`
  (app/chatbot.py:108-109). A file that cannot be opened ends the whole
  call: earlier files' inserts stay committed and no log is returned. The
  model assumes these two calls never raise.
- `ChatBot.get_response` and the rest of the chat front end. They do not
  touch the database.
- Connections, cursors and commits. Each insert commits on its own, so the
  model applies each insert as one atomic step.
- The log's text. A log line is `PageDone(file, page)` or
  `Unclassified(file, message)`. `os.path.basename` and the message
  formatting are not modelled.
- `generar_id` in the ingestion is a parameter, `generarId`, standing for
  the preprocessor object's method. The ingestion lemmas hold for any such
  function; `WorkerId.GenerarId` is the repository's own.
- `WorkerId.GenerarId`: `str.upper` is modelled for ASCII letters and the
  Latin-1 letters U+00E0 to U+00FF (except U+00F7). `µ` (U+00B5, which
  Python maps to U+039C), `ß` (which becomes two characters) and other
  scripts are left unchanged by the model.
- DECIMAL column precision and rounding, and INT width. Amounts are `real`
  and years are `int`.
- The `SERIAL` id of `cargas_sociales`, and SQL row order. The model lists
  rows in first-appearance order; SQL leaves the order unspecified.
- A `NULL` `worker_id`. Worker rows always get a string from `generar_id`,
  but an rnt entry's `worker_id` is stored as the extractor gives it
  (app/chatbot.py:133), and the column is nullable (app/database.py:57).
  An entry whose `worker_id` is `None` is inserted and its page is logged;
  since NULLs never conflict, uploading the same batch again inserts it a
  second time. The model cannot represent that entry: `Entry` carries a
  string `worker_id`, and `BadEntry` raises. `Ingestion.IngestIdempotent`
  therefore holds only for batches without such entries.
- Dict keys the insert methods do not read. An rnt entry that raises (a
  missing key, or `None` in a NOT NULL column) is the single value
  `BadEntry`.
- The `convenio_inserted` flag. It is reset to `False` on every convenio
  page before it is tested, so the `continue` it guards never runs and the
  flag changes nothing.
- `CostQuery.WorkersData` and `CostQuery.AllWorkers` are functions of the
  tables rather than methods of `Store.Database`: the two queries only
  read.
