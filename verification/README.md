# Vacancy scanner core, modelled in Dafny

A console tool that fetches job vacancies from two job boards. HeadHunter
returns ISO timestamps and SuperJob returns epoch seconds. The tool turns each
vacancy into a validated `Vacancy` object. It can sort and filter the list in
memory, and merge it into a JSON file or reload it from one. This project
models and proves the part of that tool that does the work:

- **The `Vacancy` record** (`vacancy.dfy`, module `Vacancies`).
  - The five construction checks run in order: title, url, salary, publication
    date, requirements.
  - `check_salary` changes the caller's dict in place. It is modelled by the
    `SalaryDict` class, whose `Check` method is specified by the pure
    `CheckSalary`.
  - Also modelled: the derived `medium_salary` with Python's half-to-even
    rounding, the `>` comparison, and the `__dict__` mapping.
  - A `Vacancy` is a class with constant fields. Python's `in` on vacancies
    compares object identity, because the class defines no `__eq__`, and Dafny
    reference equality models exactly that.
- **Calendar dates** (`dates.dfy`, module `Dates`).
  - `YYYY-MM-DD` parsing and rendering as `datetime.fromisoformat` and
    `str(date)` do them, for years 1..9999, including the optional time part
    that `fromisoformat` reads after the date.
  - Python's string order, shown to be chronological order on canonical dates.
  - The conversion from "Seconds Since the Epoch" (section 4.16 of POSIX.1-2017
    Base Definitions) to a UTC calendar date, as `datetime.utcfromtimestamp`
    does it.
- **The scanner's collection operations** (`scanner.dfy`, module `Scanner`).
  The class `VacancyScanner` holds the list of vacancies and the search
  settings. Its three operations replace the list:
  - a stable descending sort by medium salary;
  - a descending sort by date, truncated to the requested amount;
  - a case-insensitive substring filter on the requirements.
- **The provider adapters** (`hh_api.dfy`, `sj_api.dfy`, and `adapter.dfy` for
  what the two share).
  - The field extractors for one parsed response item.
  - The item loop of `get_vacancies`, given the parsed item list.
- **The JSON store** (`json_saver.dfy`, module `JsonSaver`).
  - The load loop of `get_vacancies`.
  - The merge loop of `save_vacancies`.
  - The file is a value: `None` for a missing file, or the list of mappings it
    holds.

`check_url` sends an HTTP GET request. The model replaces it with the
parameter `urlOk: string -> bool` of every operation that builds a vacancy,
and the verdict it stands for is the status code being 200. Exceptions are
values of a `Result` type. Plain `Exception`s raised by the checks are told
apart by the check that raised them (`EmptyTitle`, `BadUrl`, ...). Each check
raises one plain `Exception` of its own. `check_date_pub` can also let through
the `TypeError` (on None) and `ValueError` (on text it cannot read) of
`datetime.fromisoformat`. `check_url` can also let through the exceptions of
the `requests` library (`MissingSchema` on a null or empty url,
`ConnectionError` or `Timeout` on a host that does not answer); the model
reports those as `BadUrl` too.

Where the code's behaviour differs from what its structure suggests (the
`try`/`except ParsingError` around each adapter's item loop, the `not in` test
in `save_vacancies`, the salary sort key), the model follows the code:

- **A bad item aborts the whole fetch.** The adapters catch only
  `ParsingError`, and nothing on the modelled path raises it. The plain
  `Exception` of a failed check therefore propagates.
  `HeadHunterApi.FetchAllOrError` proves the result: one vacancy per item, or
  the first item's error.
- **Saving de-duplicates by identity, not by equal fields.** Loaded vacancies
  are new objects, so saving the same vacancies twice writes them twice
  (`JsonSaver.SavingTwiceDuplicates`).
- **An empty salary has no medium salary.** It is not counted as 0: reading
  its medium salary raises `KeyError`. Sorting by salary therefore fails
  whenever any vacancy has lost its salary.
- **An empty salary does not survive a save and reload.** A vacancy whose
  salary collapsed to `{}` is written but cannot be loaded back
  (`JsonSaver.CollapsedSalaryDoesNotReload`).

## Model

| member | source | states |
|---|---|---|
| Vacancies.CheckTitle | src/vacancy.py:82-88 | succeeds exactly on a truthy title, returns it unchanged, and otherwise fails with the empty-title error |
| Vacancies.CheckRequirements | src/vacancy.py:121-126 | succeeds exactly on truthy requirements, returns them unchanged, and otherwise fails with the missing-requirements error |
| Vacancies.CheckSalary | src/vacancy.py:98-112 | fails exactly on `{}`; otherwise yields a salary exactly when min, max and currency are all truthy, with the same currency, min <= max and the same pair of bounds; returns a salary that is already in order unchanged |
| Vacancies.SalaryDict.Check | src/vacancy.py:98-112 | returns what `CheckSalary` returns for the dict's old contents; afterwards the dict holds the ordered bounds when the check kept a salary, and is unchanged when the check collapsed to `{}` |
| Vacancies.CheckUrl | src/vacancy.py:90-96 | succeeds exactly when there is a url and its status verdict is 200, returns it unchanged, and otherwise fails with the bad-url error |
| Vacancies.CheckDatePub | src/vacancy.py:114-119 | succeeds exactly on the `YYYY-MM-DD` renderings of a valid date in years 1..9999 and returns the string unchanged; None raises TypeError, text `fromisoformat` cannot read raises ValueError, and text it reads that is not the rendering of its date raises the bad-date error |
| Vacancies.CheckDatePubOutcomes | src/vacancy.py:117-119 | one input for each outcome: `2023-01-05` passes, `2023-01-05T10:00` is a bad date, `2023-02-30` is a ValueError, None is a TypeError |
| Vacancies.Validate | src/vacancy.py:9-25 | the first failing check decides the error, in the order title, url, salary, date, requirements, with the date check's three error kinds; when every check passes the result is Ok; the stored fields are the checked values, with the salary normalised |
| Vacancies.Vacancy.constructor | src/vacancy.py:21-25 | the five fields hold the given checked values |
| Vacancies.Vacancy.New | src/vacancy.py:9-25 | builds a new vacancy whose mapping is what `Validate` gives, or raises its error; the caller's salary dict is normalised in place once the salary check has run, and is left as it was when an earlier check fails |
| Vacancies.Medium | src/vacancy.py:39-41 | twice the result is within 1 of min + max; a half is rounded to the even neighbour; the result lies in [min, max] when min <= max |
| Vacancies.Vacancy.MediumSalary | src/vacancy.py:39-41 | raises KeyError exactly on the `{}` salary, and otherwise is the integer mean of min and max, which lies between them |
| Vacancies.Vacancy.Gt | src/vacancy.py:72-74 | defined exactly when both vacancies have a salary, and then true exactly when the first medium salary is larger |
| Vacancies.GtIrreflexive | src/vacancy.py:72-74 | no vacancy is `>` itself |
| Vacancies.GtTransitive | src/vacancy.py:72-74 | `a > b` and `b > c` give `a > c` |
| Vacancies.Vacancy.Dict | src/vacancy.py:63-70 | the five stored fields under their keys; `JsonSaver.RoundTrip` states that a paid vacancy's mapping reloads to the same record |
| Vacancies.DictsAppend | src/json_saver.py:16 | the mappings of a joined list are the mappings of its parts, one after the other, so mapping keeps the list's order |
| Dates.DaysInMonth | src/vacancy.py:117 | every month has 28 to 31 days |
| Dates.Format | src/vacancy.py:117 | `str(date)`; `Dates.ParseFormat` states that the rendering parses back to the date |
| Dates.Parse | src/vacancy.py:117 | the `YYYY-MM-DD` date; `Dates.FormatParse` and `Dates.IsIsoDateExactly` state that what parses renders back to itself |
| Dates.FromIsoFormat | src/vacancy.py:117 | a result exists only for text of at least ten characters and is then the date of its first ten; up to ten characters it is that date's parse; longer text parses exactly when its date does and the part after the separator is a time of day with an optional UTC offset |
| Dates.DateTestIsIsoDate | src/vacancy.py:117 | the test `s == str(datetime.fromisoformat(s).date())` holds exactly on the canonical renderings of valid dates |
| Dates.ImpossibleDateFails | src/vacancy.py:117 | `2023-02-30` does not parse |
| Dates.TimePartParses | src/vacancy.py:117 | `2023-01-05T10:00` parses to 5 January 2023 but fails the re-rendering test |
| Dates.ParseFormat | src/vacancy.py:117 | rendering a valid date and parsing the text back gives the same date |
| Dates.FormatParse | src/vacancy.py:117 | text that parses renders back to itself |
| Dates.IsIsoDateExactly | src/vacancy.py:117 | the re-rendering test of check_date_pub holds exactly when the text parses, that is exactly when it renders some valid date |
| Dates.EpochRendering | api/sj_api.py:63 | the epoch day renders as `1970-01-01` |
| Dates.IsoOrderIsChronological | src/vacancy_scanner.py:100 | on canonical dates, Python's `<` on the strings is chronological order, and equal strings are equal dates |
| Dates.DaysBeforeYearClosed | api/sj_api.py:63 | the year-by-year day count before a year equals the closed form with the leap-day floor divisions that the POSIX formula uses |
| Dates.ToDaysInjective | api/sj_api.py:63 | two calendar dates with the same day number are the same date |
| Dates.FromDays | api/sj_api.py:63 | the date for a day count since the epoch is a calendar date that counts back to that number |
| Dates.ToFromDays | api/sj_api.py:63 | counting a calendar date's days and converting back gives the date |
| Dates.UtcDateOfDay | api/sj_api.py:63 | every timestamp in the k-th 86400-second block falls on the k-th day after the epoch |
| Dates.UtcDateInvertsPosix | api/sj_api.py:63 | the date of a timestamp computed by the POSIX formula from a date and a time of day is that date |
| Dates.UtcDateOfFirstDay | api/sj_api.py:63 | timestamps 0..86399 fall on 1 January 1970 |
| Dates.UtcDate | api/sj_api.py:63 | `utcfromtimestamp(ts).date()`; `Dates.UtcDateOfDay` and `Dates.UtcDateInvertsPosix` state that it is the day of the timestamp's 86400-second block and inverts the POSIX formula |
| Scanner.SortDesc | src/vacancy_scanner.py:96 | `sorted(..., key, reverse=True)`; `Scanner.SortDescCorrect` states that it is non-increasing, a permutation and stable |
| Scanner.SortDescSorted | src/vacancy_scanner.py:96 | the sort is non-increasing in the key |
| Scanner.SortDescPermutes | src/vacancy_scanner.py:96 | the sort is a permutation of its input, of the same length |
| Scanner.SortDescStable | src/vacancy_scanner.py:96 | for each key, the entries with that key keep their input order |
| Scanner.SortDescCorrect | src/vacancy_scanner.py:96 | the sort is non-increasing in the key, a permutation of its input, and stable: for each key the entries with that key keep their order |
| Scanner.SalarySortAgreesWithGt | src/vacancy_scanner.py:96 | after sorting paid vacancies by salary, every vacancy still has a salary and none is `>` one placed before it |
| Scanner.DateRankIsStringOrder | src/vacancy_scanner.py:100 | the date key orders stored vacancies exactly as Python compares their date strings |
| Scanner.NewestFirst | src/vacancy_scanner.py:100 | a list ordered by the date key has no date string below a later one |
| Scanner.SortByDateCorrect | src/vacancy_scanner.py:100 | sorting by date then truncating to n keeps min(len, n) entries of the input, newest first by string order, and none of the dropped entries is newer than a kept one |
| Scanner.Truncate | src/vacancy_scanner.py:100 | `[:amount]`, no cut while no amount is set; `Scanner.TruncateTakes` states what it keeps |
| Scanner.TruncateTakes | src/vacancy_scanner.py:100 | `[:amount]` keeps the first amount entries, or all of them when there are fewer, and so a sub-bag of the list |
| Scanner.LowerIdempotent | src/vacancy_scanner.py:104 | lowering a lowered string changes nothing |
| Scanner.Contains | src/vacancy_scanner.py:104 | `in` on strings; `Scanner.ContainsAt` characterises it |
| Scanner.ContainsAt | src/vacancy_scanner.py:104 | the keyword is in the text exactly when it is the slice of the text at some offset |
| Scanner.FilterByKeyword | src/vacancy_scanner.py:104-105 | `list(filter(...))`; `Scanner.FilterExact`, `Scanner.FilterIdempotent`, `Scanner.FilterIgnoresCase` and `Scanner.FilterEmptyKeyword` state its properties |
| Scanner.FilterIgnoresCase | src/vacancy_scanner.py:104 | filtering by a keyword is filtering by its lowered form, so the keyword's case does not matter |
| Scanner.FilterExact | src/vacancy_scanner.py:102-105 | the filter's result is a subsequence of the input; every kept entry matches; each matching entry is kept as often as it occurs, and no other entry is kept |
| Scanner.FilterIdempotent | src/vacancy_scanner.py:104-105 | filtering twice with the same keyword is filtering once |
| Scanner.FilterEmptyKeyword | src/vacancy_scanner.py:104-105 | the empty keyword keeps every entry |
| Scanner.VacancyScanner.constructor | src/vacancy_scanner.py:10-15 | empty list, no keyword, no amount, no site, and the two platforms on offer |
| Scanner.VacancyScanner.SortBySalary | src/vacancy_scanner.py:94-96 | with a vacancy lacking a salary, raises KeyError and leaves the list as it was; otherwise the list becomes its stable descending sort by medium salary; the other fields are unchanged |
| Scanner.VacancyScanner.SortByDate | src/vacancy_scanner.py:98-100 | the list becomes its descending sort by date cut to the amount; the other fields are unchanged |
| Scanner.VacancyScanner.FilterByRequirements | src/vacancy_scanner.py:102-105 | the list becomes its filter by the keyword; the other fields are unchanged |
| Adapter.Collect | api/hh_api.py:29-36 | the item loop inside its `try`; `Adapter.CollectCharacterized` characterises it |
| Adapter.CollectCharacterized | api/hh_api.py:29-36 | the item loop yields at most one vacancy per item, in item order; it stops short only at a ParsingError; it fails only with the first non-ParsingError error; with every item built it yields them all |
| HeadHunterApi.GetTitle | api/hh_api.py:38-40 | `item['name']`; `HeadHunterApi.Build` states that a built record's title is the item's name |
| HeadHunterApi.GetUrl | api/hh_api.py:42-44 | `item['url']`; `HeadHunterApi.Build` states that a built record's url is the item's url |
| HeadHunterApi.GetRequirements | api/hh_api.py:58-60 | `item['snippet']['requirement']`; `HeadHunterApi.Build` states that a built record's requirements are the item's requirement |
| HeadHunterApi.GetSalary | api/hh_api.py:46-52 | succeeds exactly when the salary and its `from` are present, and then gives min = `from`, max = min and the same currency; otherwise it raises TypeError |
| HeadHunterApi.GetSalaryIgnoresTo | api/hh_api.py:49-51 | changing `to` does not change the salary |
| HeadHunterApi.Head | api/hh_api.py:56 | the first ten characters, or the whole string when shorter |
| HeadHunterApi.GetDatePub | api/hh_api.py:54-56 | raises TypeError on a null `published_at`; otherwise succeeds exactly when `fromisoformat` reads the first ten characters, and then returns exactly those characters, a string check_date_pub accepts, and raises ValueError when it cannot |
| HeadHunterApi.Build | api/hh_api.py:31-32 | builds exactly when the salary and date extract and the name, url and requirement pass their checks; once salary and date extract, the outcome is `Validate` of the item's fields; salary errors come before the date extractor's TypeError or ValueError; no error is a ParsingError or a bad date; a built record has the item's name, url and requirement and the date prefix, and a salary with min = max = `from` |
| HeadHunterApi.MakeVacancy | api/hh_api.py:31-33 | builds a new vacancy from item i whose mapping is that item's `Build` outcome, or raises its error, never a ParsingError |
| HeadHunterApi.GetVacancies | api/hh_api.py:29-36 | the distinct new vacancies built are what the item loop yields for the parsed items, absent items counting as none |
| HeadHunterApi.FetchAllOrError | api/hh_api.py:29-36 | a fetch gives one vacancy per item in response order, or fails with the error of the first item that does not build; without `items` it gives none |
| SuperJobApi.GetTitle | api/sj_api.py:42-44 | `item['profession']`; `SuperJobApi.Build` states that a built record's title is the profession |
| SuperJobApi.GetUrl | api/sj_api.py:46-48 | `item['link']`; `SuperJobApi.Build` states that a built record's url is the link |
| SuperJobApi.GetRequirements | api/sj_api.py:65-67 | `item['candidat']`; `SuperJobApi.Build` states that a built record's requirements are the candidat |
| SuperJobApi.GetSalary | api/sj_api.py:50-59 | succeeds exactly when both payments are present; min = `payment_from` and the currency is copied; max = min when `payment_to` is 0 and `payment_to` otherwise; it raises TypeError when either payment is null |
| SuperJobApi.ReversedBoundsSwappedByCheck | api/sj_api.py:52-58 | reversed positive bounds reach check_salary reversed, and it puts them in order |
| SuperJobApi.GetDatePub | api/sj_api.py:61-63 | succeeds exactly when the UTC date of the timestamp has a year in 1..9999, and then returns a canonical date string that parses to that UTC date; otherwise it raises ValueError |
| SuperJobApi.SameDaySameDate | api/sj_api.py:63 | two timestamps in the same 86400-second block give the same date |
| SuperJobApi.EpochDay | api/sj_api.py:63 | timestamps 0..86399 give `1970-01-01` |
| SuperJobApi.PosixRoundTrip | api/sj_api.py:63 | a timestamp made by the POSIX formula from a valid date gives that date back |
| SuperJobApi.DatePassesCheck | api/sj_api.py:63 | check_date_pub accepts every date the extractor returns, unchanged |
| SuperJobApi.Build | api/sj_api.py:35-36 | builds exactly when the salary and date extract and the profession, link and candidat pass their checks; once salary and date extract, the outcome is `Validate` of the object's fields; salary errors come before date errors; no error is a ParsingError or a bad date; a built record has the item's profession, link and candidat and the converted date, and an ordered salary with the same pair of bounds |
| SuperJobApi.MakeVacancy | api/sj_api.py:35-37 | builds a new vacancy from object i whose mapping is that object's `Build` outcome, or raises its error, never a ParsingError |
| SuperJobApi.GetVacancies | api/sj_api.py:33-40 | the distinct new vacancies built are what the item loop yields for the parsed objects, absent objects counting as none |
| SuperJobApi.FetchAllOrError | api/sj_api.py:33-40 | a fetch gives one vacancy per object in response order, or fails with the error of the first object that does not build; without `objects` it gives none |
| JsonSaver.LoadRecord | src/json_saver.py:32-34 | constructing a vacancy from a stored mapping never reports a missing file |
| JsonSaver.LoadedPrefixErr | src/json_saver.py:31-35 | a failure within the first n mappings is the failure of the whole load |
| JsonSaver.LoadAll | src/json_saver.py:30-35 | the loop over the stored mappings; `JsonSaver.LoadAllCharacterized` characterises it |
| JsonSaver.LoadedCharacterized | src/json_saver.py:31-35 | the load loop succeeds exactly when every outcome is a vacancy, and then yields them all in order; otherwise it fails with the first error |
| JsonSaver.LoadAllCharacterized | src/json_saver.py:28-36 | loading succeeds exactly when every stored mapping passes the checks, with one record per mapping in file order; otherwise it fails with the first failing mapping's error, never a missing-file error |
| JsonSaver.LoadRecordNormalizes | src/json_saver.py:32-34 | a reloaded mapping differs from the stored one only in its salary being checked again, and not at all when that salary is already normalised |
| JsonSaver.LoadOne | src/json_saver.py:32-34 | builds a new vacancy from one stored mapping whose fields are what the checks make of it, or raises their error |
| JsonSaver.LoadedAdvance | src/json_saver.py:31-35 | one pass of the load loop either appends the next record and keeps the loop invariant, or its error is the result of the whole load |
| JsonSaver.GetVacancies | src/json_saver.py:25-36 | the distinct new vacancies built are the file's mappings loaded in order; a missing file raises FileNotFoundError |
| JsonSaver.Merge | src/json_saver.py:13-15 | the merge loop; `JsonSaver.MergeProperties`, `JsonSaver.MergeDisjoint` and `JsonSaver.MergeDistinct` state its properties |
| JsonSaver.MergeProperties | src/json_saver.py:13-15 | the merge keeps the existing list as its prefix, grows by at most the input's length, contains exactly the existing and the input objects, and adds no duplicate |
| JsonSaver.MergeDisjoint | src/json_saver.py:13-15 | merging into a list that shares no object with the input appends the de-duplicated input |
| JsonSaver.MergeDistinct | src/json_saver.py:13-15 | distinct input objects are all appended, in input order |
| JsonSaver.MergeStep | src/json_saver.py:13-15 | one pass of the merge loop appends the next object exactly when it is not already in the list |
| JsonSaver.MergeInto | src/json_saver.py:13-15 | the merge loop leaves exactly the list the merge defines |
| JsonSaver.MergeIntoFresh | src/json_saver.py:12-16 | objects made by the load are none of the input, so the mappings written are the loaded ones followed by the de-duplicated input |
| JsonSaver.Saved | src/json_saver.py:9-23 | the list `save_vacancies` writes; `JsonSaver.SaveKeepsFile` and `JsonSaver.MissingFileKeepsRepeats` state what it keeps |
| JsonSaver.SaveVacancies | src/json_saver.py:9-23 | the list written is the loaded file followed by the de-duplicated input; a missing file gets the input as it is; any other load error propagates |
| JsonSaver.SaveKeepsFile | src/json_saver.py:12-16 | saving to a loadable file keeps its loaded records first, in file order, then the new objects; distinct inputs are all appended |
| JsonSaver.MissingFileKeepsRepeats | src/json_saver.py:20-23 | without a file a repeated object is written twice; into a file holding an empty JSON list it is written once |
| JsonSaver.RoundTrip | src/json_saver.py:32-34 | a vacancy with a salary and a passing url reloads to the same five fields |
| JsonSaver.CollapsedSalaryDoesNotReload | src/json_saver.py:32-34 | a vacancy whose salary collapsed to `{}` fails to reload: with the url error when its url fails, and the empty-salary error otherwise |
| JsonSaver.PoisonedFile | src/json_saver.py:11-12 | one stored mapping that does not load makes every save to that file fail, and not with a missing-file error |
| JsonSaver.LoadAllOfReloadable | src/json_saver.py:28-36 | a file whose every mapping reloads to itself loads to exactly its content |
| JsonSaver.SavingTwiceDuplicates | src/json_saver.py:12-15 | saving the same reloadable vacancies twice into a self-reloading file appends them twice |

## Left out

- Vacancies.CheckUrl: the exceptions of the `requests` library itself, `MissingSchema` on a null or empty url among them, are reported as `BadUrl` and not as errors of their own, because the HTTP request is the parameter `urlOk`.
- `check_url`: it sends an HTTP GET request. Its verdict is the parameter `urlOk`.
- Request building and sending in both adapters, the `.json()` parsing and the `SuperJob_API` environment variable: I/O. The parsed item list is an input, and `None` stands for a response without the list key.
- Opening, reading and writing files, and JSON encoding and decoding: I/O. The file is `Option<seq<Fields>>`. A file that exists but does not hold a JSON list of five-key mappings is not modelled.
- The interactive menu and prompt loops of `VacancyScanner` (`user_commands`, `get_vacancies`, `choose_platform`, `sort_vacancies`, `display_vacancies`, `save_vacancies_to_file`, `import_vacancies_from_file`, `filter_vacancies`): console glue around the modelled operations.
- `BaseAPI`: it only declares methods with empty bodies.
- `Vacancy.__str__` and `__repr__`: display formatting.
- `Vacancy.check_data`: never called.
- `src/exception.py` is not part of this model. `ParsingError` is one more error value, and no modelled code produces it.
- Vacancies.Medium: computes `round((min + max) / 2)` on exact integers. For sums beyond 2^53, the float division of the source loses precision first.
- Scanner.Lower: lowers ASCII letters and the Cyrillic capitals U+0400..U+042F only. Other characters that `str.lower()` changes are left as they are.
- Dates.FromIsoFormat: reads the form that Python 3.7 to 3.10 document, `YYYY-MM-DD[*HH[:MM[:SS[.fff[fff]]]][+HH:MM[:SS[.ffffff]]]]` with any one character for `*`. The C parser of those versions also takes a few further separator placements, such as a fraction right after the hour, and it range-checks only the whole offset (under 24 hours), not its minute and second fields one by one, so that `2023-01-05T10:00+05:99` parses there but not in the model; Python 3.11 adds forms such as `YYYYMMDD` and a `Z` offset. On those texts the model gives ValueError where the source would give the bad-date error; the model reads no text that Python 3.7 to 3.10 reject.
- Salary dicts with other key sets, such as a missing `currency` key, and non-integer bounds: the salary is `{}` or the three-key form. The KeyError those would raise is not modelled.
- Null currencies: a currency is a string. A null currency would collapse the salary exactly as the empty string does.
- Provider items with missing keys, or a null `snippet`: the items carry the keys the extractors read. A nullable text field, `published_at` among them, is `Option<string>`.
- SuperJobApi.GetDatePub: the timestamp is an integer number of seconds, and every failure is ValueError. Float timestamps are not modelled. Nor are the platform errors: the `OSError` for negative timestamps on Windows, and the `OSError` or `OverflowError` that CPython on Linux raises for timestamps beyond the range of `gmtime` or of `time_t` (beyond about 6.7e16 seconds).
- Vacancies.Vacancy.New: stores the checked salary as a value. In the source it is the caller's dict object, so later changes to that dict would show through. No modelled code changes a dict after construction.
- The error messages of the exceptions: only the kind is kept.
