# whoistel in Dafny

A model of the core of whoistel, a tool that looks up French telephone
numbers in the ARCEP open-data snapshot of number ranges, and that comes with
a small web UI and some helper scripts. The model covers four parts, and the
proofs of their properties:

- **The prefix-resolution engine** (`Whoistel.dfy`). It covers:
  - canonicalising a raw number: separators are removed and one
    international prefix (`+330`, `+33` or `0033`) is rewritten to `0`;
  - the ten-digit format check;
  - geographic / non-geographic classification by the first two digits;
  - the longest-prefix match, which probes `tel[:k]` from `k = min(len, 9)`
    down to 2 in the table the classification selects;
  - the operator join, which drops invalid e-mails and non-http(s) sites and
    falls back to an "Inconnu" record;
  - the commune join;
  - the coarse region that every geographic number that is found gets;
  - which blocks the result printer shows, and its return value.

  The four SQLite tables are immutable maps in one `Database` value, passed in
  where the program passes a connection. `search_number` and `get_full_info`
  are methods: the first has the probing loop, the second fills the result one
  field at a time. Each is proved equal to a specification function
  (`Search`, `FullInfo`), and the lemmas are stated about those functions.
- **The request decisions of the web UI** (`WebApp.dfy`): the `/check`,
  `/view/<number>` and `/report` handlers, each a pure function.
  - `Check` and `Report` map the submitted form fields to an `Outcome`: the
    flash messages queued, the report handed to the history store (at most
    one), and the HTTP response.
  - `View` maps the number in the URL, the database and the e-mail validator
    to a `Response`: a 400, a redirect, or the result page.
- **The CSV file name of a workbook sheet** (`XlsToCsv.dfy`). It covers:
  - the sheet-name sanitisation;
  - collapsing `_` runs: split on `_`, drop empty pieces, join with `_`;
  - POSIX `os.path.splitext`;
  - the `sheet_<index>` fallback.

  It also gives an independent definition of the safe name as the maximal
  ASCII-alphanumeric runs of the name, and proves the two definitions equal.
- **The feedback filter of the pull-request helper** (`PrHelper.dfy`).
  `process_items` appends to a list that it shares with its caller. That list
  is the `seq` field of a `FeedbackFilter` object; `ProcessItems` is a method
  with a loop that appends to it. `FilterFeedbackSince` calls it once for each
  of the three categories.

`PyStr.dfy` gives the Python string semantics the core relies on:
`str.isspace`, `strip`, ASCII `isalnum`/`isdigit`, slicing, `split`/`join`,
`rfind`, and the lexicographic `<` on strings (Dafny's `<` on sequences means
"proper prefix"). `Wrappers.dfy` holds `Option`.

## Model

| member | source | states |
|---|---|---|
| Whoistel.RemoveSeparatorsSpec | whoistel.py:47-48 | `RemoveSeparators`: removing `[\s.\-()]` leaves no separator, never lengthens the text, and leaves a separator-free text unchanged |
| Whoistel.CleanPhoneNumber | whoistel.py:45-58 | `None` and `""` give `""`; no result ever holds a whitespace, `.`, `-`, `(` or `)` character |
| Whoistel.RewritePrefix | whoistel.py:50-56 | the text changes iff it starts with `+33` or `0033`; a changed text is `0` followed by the original minus a 3- or 4-character prefix (which prefix is removed: `RewriteTrunk`, `RewriteCountry`, `RewriteInternational`) |
| Whoistel.CleanIgnoresSeparator | whoistel.py:47-58 | inserting a separator anywhere in a raw number does not change its canonical form |
| Whoistel.CleanPrefixedDigits | whoistel.py:48-58 | a prefix whose separators reduce to `q`, followed by digits `d`, canonicalises to the rewrite of `q + d` |
| Whoistel.RewriteTrunk | whoistel.py:51-52 | `+330` followed by `d` is rewritten to `0` followed by `d` |
| Whoistel.RewriteCountry | whoistel.py:53-54 | `+33` followed by digits that do not start with `0` is rewritten to `0` followed by those digits |
| Whoistel.RewriteInternational | whoistel.py:55-56 | `0033` followed by `d` is rewritten to `0` followed by `d` |
| Whoistel.CleanInternationalDigits | whoistel.py:48-56 | `0033` followed by digits canonicalises to `0` followed by those digits |
| Whoistel.CleanTrunkDigits | whoistel.py:48-52 | `+330` followed by digits canonicalises to `0` followed by those digits |
| Whoistel.CleanTrunkPrefix | whoistel.py:48-52 | `+33 (0) ` followed by digits (for example `+33 (0) 612345678`) canonicalises to `0` followed by those digits |
| Whoistel.CleanCountryCode | whoistel.py:48-54 | `+33` followed by digits that do not start with `0` canonicalises to `0` followed by those digits |
| Whoistel.IsValidPhoneFormat | whoistel.py:60-72 | valid iff exactly ten characters, all ASCII digits |
| Whoistel.CleanFixesValidNumber | whoistel.py:45-58 | a valid number that does not begin with `0033` is its own canonical form |
| Whoistel.CleanShortensValid0033 | whoistel.py:55-56 | a valid number beginning with `0033` canonicalises to 7 digits, which are no longer valid: canonicalisation is not idempotent |
| Whoistel.ClassificationByFirstTwo | whoistel.py:164 | `IsGeographic`: two numbers with the same first two characters get the same classification |
| Whoistel.GeographicHasRegion | whoistel.py:27-33 | the first two digits of every geographic number are a key of the region map |
| Whoistel.MatchAt | whoistel.py:180-197 | the match of a key carries that key as its prefix and the table's kind; a non-geographic match has no INSEE code |
| Whoistel.MaxProbe | whoistel.py:173 | the first probed length is `min(len(tel), 9)` |
| Whoistel.Probe | whoistel.py:173-198 | a hit is a prefix `tel[:j]` with `2 <= j <= k` that is a key of the probed table, and carries that key's row |
| Whoistel.Search | whoistel.py:164-200 | a hit is a prefix of the number, between 2 and `min(len(tel), 9)` long, and its kind is `Geographique` iff the number is geographic |
| Whoistel.ProbeHit | whoistel.py:173-198 | a hit of the probing from `k` down is a key `tel[:j]` with `2 <= j <= k`, and no longer probed prefix is a key |
| Whoistel.ProbeMiss | whoistel.py:173-200 | the probing misses iff no `tel[:j]` with `2 <= j <= k` is a key |
| Whoistel.ProbeReadsSelectedTable | whoistel.py:166-198 | the probing reads only the selected table |
| Whoistel.SearchNumber | whoistel.py:150-200 | the loop over decreasing lengths with `break` computes `Search` |
| Whoistel.SearchHitIsLongest | whoistel.py:164-198 | on a hit, the prefix is `tel[:k]` with `2 <= k <= min(len, 9)`; it is a key of the selected table and no longer prefix is; the kind follows the classification; the row fields come from that key; a non-geographic hit has no INSEE code |
| Whoistel.SearchMissIff | whoistel.py:166-200 | `None` iff no probed prefix is a key of the selected table |
| Whoistel.SearchPrefersLonger | whoistel.py:173-187 | when two probed prefixes are both keys, the longer one wins |
| Whoistel.SearchIgnoresOtherTable | whoistel.py:166 | changing the table that is not selected does not change the result: there is no fallback |
| Whoistel.SanitizeMail | whoistel.py:109-113 | a truthy e-mail is kept iff the validator accepts it; after that it is either kept or dropped |
| Whoistel.SanitizeSite | whoistel.py:115-118 | a truthy site is kept iff its scheme is `http`/`https` and its netloc is non-empty; after that it is either kept or dropped |
| Whoistel.UrlNetloc | whoistel.py:116-117 | the netloc never contains `/`, `?` or `#` |
| Whoistel.HttpUrlIsSafe | whoistel.py:115-118 | every `http:`/`https:` URL, with its scheme in any case, a `//` and a non-empty host, passes the site rule |
| Whoistel.SchemelessSiteIsUnsafe | whoistel.py:115-118 | a site without `:` has an empty scheme and is dropped |
| Whoistel.GetOperatorInfo | whoistel.py:93-127 | `None` iff the code is empty or has no row; otherwise it gives the row's name and type, and the row's e-mail and site passed through the e-mail rule and the site rule: a valid value is kept, an invalid one is dropped, and none is ever invalid |
| Whoistel.GetCommuneInfo | whoistel.py:129-148 | `None` iff the code is missing, empty, `'0'` or has no row; otherwise it gives the code and the row |
| Whoistel.UnknownOperator | whoistel.py:231 | the fallback operator carries the range's code and has neither e-mail nor site, so it passes both rules whatever the validator |
| Whoistel.LocationOf | whoistel.py:233-243 | a location, when there is one, is never the empty dict; a non-geographic range without an INSEE code has no location |
| Whoistel.FoundResult | whoistel.py:221-243 | a hit is found, has no error, and carries the range's prefix, kind and operator code; its operator is always present, has that code, and has passed both rules |
| Whoistel.FullInfo | whoistel.py:202-245 | the result is for the number asked, and it is found iff the search hits |
| Whoistel.GetFullInfo | whoistel.py:202-245 | the step-by-step construction of the result dict computes `FullInfo` |
| Whoistel.FullInfoNotFound | whoistel.py:206-219 | not found iff no probed prefix is a key; a miss is the fixed record with the "Numéro inconnu" error and every other field empty |
| Whoistel.FullInfoAbsentFromBothTables | whoistel.py:206-219 | a number that is in neither table is not found, whatever its classification |
| Whoistel.FullInfoOperator | whoistel.py:221-231 | a hit carries its kind, prefix and operator code; its operator is the joined row when the code has one, and otherwise the `Inconnu`/`N/A` record; it never exposes an invalid e-mail or site |
| Whoistel.FullInfoGeographicLocation | whoistel.py:233-243 | a geographic hit always has `location.region`, even when a commune was found; the commune is the join of the range's INSEE code |
| Whoistel.FullInfoNonGeographicLocation | whoistel.py:233-243 | a non-geographic hit has kind `Non-Geographique` and no location |
| Whoistel.Present | whoistel.py:257-262 | the not-found branch is taken iff `found` is false, and shows the error and the open-data note |
| Whoistel.PrintResult | whoistel.py:247-295 | the return value is `result['found']` |
| Whoistel.PresentMiss | whoistel.py:259-262 | a miss is shown with the fixed not-found message and note |
| Whoistel.PresentHit | whoistel.py:264-295 | a geographic hit shows its region, with the "commune non disponible" note iff no commune was found; a non-geographic hit shows no location; a shown site or e-mail has passed validation |
| WebApp.Field | webapp.py:94 | `form.get(key)`: present iff the key was sent, with the value sent |
| WebApp.Check | webapp.py:91-104 | a missing or empty number flashes the "missing" message and goes to the index; an invalid canonical number flashes the "invalid" message and goes to the index; it redirects to `/view/<canonical>` iff neither applies; nothing is stored |
| WebApp.View | webapp.py:106-121 | a 400 iff the canonical form is invalid; a redirect to the canonical form iff that form is valid but differs from the argument; only a canonical, valid number is looked up |
| WebApp.ViewShowsValidNumber | webapp.py:109-121 | a valid number that does not begin with `0033` is shown directly |
| WebApp.ViewRedirectThenShows | webapp.py:114-121 | following the redirect of the view page reaches a shown page, unless the canonical form begins with `0033` |
| WebApp.CheckThenViewShows | webapp.py:99-121 | what the search form accepts is shown when its redirect is followed, unless it canonicalises to a `0033` number |
| WebApp.CheckAcceptsWhatViewRejects | webapp.py:99-112 | for a valid `0033…` number `t`, the search form sends `+330` + `t[1:]` on to `/view/t`, and that page answers 400 |
| WebApp.StoredComment | webapp.py:139-142 | the stored comment is a prefix of the stripped comment, at most 1024 characters long, and equal to it when it is short enough |
| WebApp.TruncationNotice | webapp.py:140-141 | the "tronqué à 1024 caractères" info flash is queued iff the stripped comment is longer than 1024 |
| WebApp.ReportDate | webapp.py:144-151 | an empty or absent date becomes `None`; any other date is kept |
| WebApp.Report | webapp.py:123-159 | always a redirect; exactly one report is stored iff the canonical number is non-empty and valid, the date is absent or parses, and the spam box, a comment or a date is present; the stored report holds the canonical number, the date, the spam flag and the stored comment |
| WebApp.ReportCommentBound | webapp.py:139-142 | a stored comment has at most 1024 characters, is a prefix of the stripped comment, and has exactly 1024 iff the stripped comment had at least that many |
| WebApp.ReportTruncationNotice | webapp.py:126-142 | the truncation notice is queued iff the number passes its checks and the stripped comment exceeds 1024 characters |
| WebApp.ReportRejectsInvalidNumber | webapp.py:132-134 | a non-empty invalid canonical number flashes the internal-error message, goes to `/view/<that number>` and stores nothing |
| WebApp.ReportRejectsMissingNumber | webapp.py:126-129 | a number whose canonical form is empty flashes the "missing" message, goes to the index and stores nothing |
| WebApp.ReportRejectsBadDate | webapp.py:144-149 | a given date that does not parse is flashed as invalid, and nothing is stored |
| WebApp.ReportEmptyDateIsNone | webapp.py:150-151 | an empty date is stored as `None` |
| WebApp.ReportNeedsOneField | webapp.py:153-155 | without the spam box, a comment or a date, nothing is stored and the "cochez la case" message is flashed |
| WebApp.ReportStoredConfirmed | webapp.py:157-159 | a stored report is confirmed by the success flash and followed by the page of its valid number |
| XlsToCsv.Sanitize | xls_to_csv_converter.py:24-26 | same length as the sheet name; every character is an ASCII letter, an ASCII digit or `_`; letters and digits are kept and everything else becomes `_` |
| XlsToCsv.NonEmpty | xls_to_csv_converter.py:28 | `filter(None, …)` keeps only non-empty pieces, all taken from the input, keeps every non-empty piece, is never longer than the input, and keeps a list that has no empty piece as it is |
| XlsToCsv.SafePiecesAreRuns | xls_to_csv_converter.py:24-28 | the pieces of the safe name are non-empty runs of ASCII letters and digits |
| XlsToCsv.SafeNameIsSafe | xls_to_csv_converter.py:28 | `SafeName`: the safe name uses only ASCII letters, digits and `_`, has no `__`, and neither begins nor ends with `_` |
| XlsToCsv.SanitizeKeepsSafe | xls_to_csv_converter.py:24-26 | sanitisation leaves a text of letters, digits and `_` unchanged |
| XlsToCsv.AlnumNameUnchanged | xls_to_csv_converter.py:24-28 | a sheet name made only of ASCII letters and digits is its own safe name |
| XlsToCsv.SafeNameIdempotent | xls_to_csv_converter.py:24-28 | taking the safe name twice gives the same result as taking it once |
| XlsToCsv.RunsFrom | xls_to_csv_converter.py:24-28 | the reference definition: the maximal runs of letters and digits, which are non-empty and alphanumeric |
| XlsToCsv.SafeNameIsJoinedRuns | xls_to_csv_converter.py:24-28 | the safe name is the maximal ASCII-alphanumeric runs of the sheet name, in order, joined by single `_` |
| XlsToCsv.SplitExt | xls_to_csv_converter.py:32 | the stem and the extension concatenate to the path; the extension is empty, or a `.` followed by no `.` and no `/`; an extension is split off only when the last path component has a non-dot character before it (so `.bashrc` has none); and a path with no extension has no `.` in its last component that follows a non-dot character |
| XlsToCsv.FirstIndex | xls_to_csv_converter.py:35 | `sheet_names.index(name)`: the first position that holds the name |
| XlsToCsv.SheetPart | xls_to_csv_converter.py:33-35 | the sheet's part of the file name is never empty and uses only safe characters; it is the safe name when that is non-empty, and otherwise `sheet_` followed by the first index |
| XlsToCsv.OutputPathShape | xls_to_csv_converter.py:32-35 | `OutputPath`: the path is the stem of the base path, `_`, the sheet part, then the extension of the base path |
| XlsToCsv.OutputPathKeepsExtension | xls_to_csv_converter.py:32-35 | `splitext` of the output path gives the base path's extension back: a sheet name adds neither a directory nor an extension |
| PyStr.LexLessIrreflexive | agent-tools/pr_helper.py:54 | `LexLess` (Python's `<` on `str`): no string is greater than itself |
| PyStr.LexLessTrichotomy | agent-tools/pr_helper.py:54 | of two different strings, exactly one is greater |
| PyStr.LexLessTransitive | agent-tools/pr_helper.py:54 | the string order is transitive |
| PyStr.ProperPrefixIsLexLess | agent-tools/pr_helper.py:54 | a proper prefix is smaller |
| PyStr.Strip | webapp.py:139 | the stripped comment neither begins nor ends with whitespace, is no longer than the raw one, and is the raw one when that has no whitespace |
| PyStr.TrimStart | webapp.py:139 | `lstrip()` leaves a suffix of the text that does not begin with whitespace, and everything it removed is whitespace |
| PyStr.TrimEnd | webapp.py:139 | `rstrip()` leaves a prefix of the text that does not end with whitespace, and everything it removed is whitespace |
| PyStr.Take | webapp.py:142 | `s[:n]` is the prefix of length `min(n, len(s))` |
| PyStr.Split | xls_to_csv_converter.py:28 | `split('_')` gives at least one piece, and no piece holds the separator or a character that is not in the text |
| PyStr.JoinSplit | xls_to_csv_converter.py:28 | `Join`: joining the pieces of a split with the separator gives the text back |
| PyStr.SplitJoin | xls_to_csv_converter.py:28 | splitting a join of pieces that do not contain the separator gives the pieces back |
| PrHelper.Timestamp | agent-tools/pr_helper.py:53 | the first truthy value of `submitted_at`, `updated_at`, `created_at`, in that order; `None` iff none is truthy |
| PrHelper.Tagged | agent-tools/pr_helper.py:55 | `{**item, '_type': kind}`: same keys plus `_type`, which is set to the kind (replacing any earlier one), and every other key unchanged |
| PrHelper.FeedbackFilter.ProcessItems | agent-tools/pr_helper.py:49-57 | appends exactly the kept items of the list, tagged and in order, to the shared list, and returns how many it appended |
| PrHelper.FilterFeedbackSince | agent-tools/pr_helper.py:45-64 | the result is the selected reviews, then inline comments, then issue comments, and the three counts are their lengths |
| PrHelper.TaggedKeepsTimestamp | agent-tools/pr_helper.py:53-55 | tagging does not change the timestamp |
| PrHelper.SelectedMembers | agent-tools/pr_helper.py:51-55 | `Selected`: an item is emitted iff it is the tagged form of an input item that has a timestamp strictly greater than `since` |
| PrHelper.SelectedAreNewer | agent-tools/pr_helper.py:54-55 | every emitted item has a timestamp strictly greater than `since` and carries its list's `_type` |
| PrHelper.NotNewerIsDropped | agent-tools/pr_helper.py:54 | `Kept`: an item stamped exactly `since`, or with no timestamp, is dropped |
| PrHelper.SelectedConcat | agent-tools/pr_helper.py:51-56 | selection works item by item, so it keeps the input order |
| PrHelper.CountLabelSelected | agent-tools/pr_helper.py:55-56 | every item emitted for a list carries that list's label and no other |
| PrHelper.CountsMatchLabels | agent-tools/pr_helper.py:59-64 | each count equals the number of emitted items with its label, and the three add up to the number emitted |

## Left out

- SQLite access: `setup_db_connection`, the queries and `DatabaseError` (whoistel.py:74-91). The tables are map values, and a database failure is not modelled.
- `validate_email`: the e-mail validator is the parameter `validEmail`.
- `urlparse` is modelled only as far as the site rule needs it.
  - The scheme is the letters, digits, `+`, `-` and `.` before the first `:`, starting with a letter and lower-cased.
  - The netloc is what follows `//`, up to the first `/`, `?` or `#`.
  - Leading controls and spaces are stripped, and tabs, CR and LF removed.
  - The `ValueError` for a malformed IPv6 bracket and the NFKC netloc check are not modelled.
- Unicode digits and whitespace:
  - `isdigit`/`isalnum` are ASCII only. The sanitiser requires ASCII anyway, but `is_valid_phone_format` in Python also accepts other Unicode digits.
  - `\s` is the set `str.isspace` accepts, written out.
- `datetime.strptime(date, '%Y-%m-%d')` is the parameter `parsesDate`.
- Web UI parts the decisions do not depend on: Flask routing, CSRF, templates, flash storage, `_get_db`/`close_dbs` and the `g` registry, `format_datetime`, the `/history` page, and the error handlers.
- The result page's spam count is not part of `ResultPage`.
- `history_manager` is a SQL wrapper. `add_report` is modelled as the one stored `SpamReport` of an outcome.
- The text `print_result` writes, and the CLI `main`. The model states which blocks are shown and the return value.
- `generatedb.py`, `query_op.py`, `inspect_xls.py`, the polling scripts and the `gh` commands of `pr_helper.py` (`cmd_*`, `run_gh_api`) are not part of this model.
- `generatedb.py` declares the geographic `PlageTel` column INTEGER. Through SQLite type affinity such a range matches only the length-6 probe, and other lengths never match. This is a data-shape issue outside the engine: the model's tables hold text keys that every probe can match, and INSEE codes are modelled as text.
- The pandas reading and writing of the workbook and the per-sheet loop are left out; only the path chosen for a sheet is modelled.
- Every `os.path.splitext` is modelled with the POSIX `/` separator.
- PrHelper.Timestamp: feedback values are `null` or strings only. A truthy non-string timestamp, on which Python's `>` would raise `TypeError`, is not modelled.
- A geographic number gets its region also when a commune was found: the `region` key is added to the commune dict (whoistel.py:237-243).
- Canonicalisation is modelled as written, including the `0033` case that is not idempotent. `CleanShortensValid0033` and `CheckAcceptsWhatViewRejects` state what results.
