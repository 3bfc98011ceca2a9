# Twawler, modelled in Dafny

Twawler crawls Twitter for users who live in Peru. It starts from one seed
screen name. That name is given directly, or it is taken from the first
link of a Google Custom Search result. For each seed, the crawler:

- fetches the seed user, retrying `GetUser` until a call succeeds;
- marks the seed's row in the MySQL table as checked (`checked=1`);
- finds the seed's followers whose location contains "peru" or "perú";
- inserts each such follower as an unchecked row (`checked=0`), unless its
  screen name is already in one of two name lists (checked and unchecked)
  read from the table;
- reads both lists again and takes the first unchecked name as the next seed.

An empty unchecked list ends the run.

This project models that core and proves properties of the model.

- Module `SqlHelper` is `SQL_Helper.make_insert_query`. Each value becomes
  either a canonical integer (when Python's `int()` accepts it) or a quoted
  string. The values are joined into the fixed INSERT template.
- Module `Database` is the table. It is an ordered sequence of rows,
  `(screen_name, name, location, checked, follower_count)`, held in the
  class `Table`. The class has the three statements the crawler runs
  against it: the SELECT of the screen names with a given `checked` flag,
  the UPDATE that sets `checked=1`, and the INSERT.
- Module `Twawler` holds the rest:
  - the pure parts of `twawler.py`: `check_peru`, `make_query`,
    `get_config_path`, and the screen-name extraction of
    `get_by_google_search`;
  - the class `Crawler`, whose methods follow the loops of `Twawler.run`.
- Module `Wrappers` has the `Option` type.

The outside world reaches `Crawler.Run` through two of its parameters.
One is `env`, a value of type `Env` with these fields:

- the Twitter API: an oracle that says, for each attempt at `GetUser(name)`,
  whether the call raised or which user it returned, plus the follower list
  of each user;
- where storing a follower hits a `UnicodeEncodeError` (an oracle
  `Profile -> EncodingFault`).

The other is `firstLink`, the first search-result link.

The two unbounded loops are bounded by fuel:

- `while True` by `rounds`;
- the `GetUser` retry loop by `patience`.

Two facts of the code shape the crawler model:

- Every `GetUser` failure is retried, whatever the exception.
- When building a query hits a `UnicodeEncodeError`, `make_query` returns
  the text `'EncodingError'`, and `run` executes it as SQL. Nothing catches
  the resulting MySQL error, so the run stops. `Crawler.StoreFollower`
  reports this, `Crawler.ProcessFollowers` stops at that follower, and
  `Crawler.Run` ends with `Aborted`. The per-follower behaviour that was
  evidently intended, dropping only that follower, is `FollowerAction`
  (see Findings).

## Model

| member | source | states |
|---|---|---|
| SqlHelper.TrimLeft | sql_helper.py:16 | `int()` strips leading whitespace: the result is a suffix of the input, every dropped character is whitespace, and the result does not start with whitespace |
| SqlHelper.TrimRight | sql_helper.py:16 | the same for trailing whitespace: a prefix, only whitespace dropped, and no whitespace at the end |
| SqlHelper.TrimUnchanged | sql_helper.py:16 | a text with no whitespace at either end is unchanged by trimming |
| SqlHelper.DigitChar | sql_helper.py:17 | a digit below ten is written as the decimal digit character of that value |
| SqlHelper.NatToString | sql_helper.py:17 | `str()` of a natural number is a non-empty run of digits, with a leading zero only for 0 |
| SqlHelper.NatToStringValue | sql_helper.py:17 | the digits `str()` writes denote the number written |
| SqlHelper.IntToStringParses | sql_helper.py:16-17 | `int(str(i)) == i` for every integer: the canonical text parses back to the same number |
| SqlHelper.IntToStringShape | sql_helper.py:17 | `str(i)` is non-empty and made only of digits and the minus sign |
| SqlHelper.Trim | sql_helper.py:16 | definition: the whitespace `int()` strips from both ends; `TrimLeft`, `TrimRight` and `TrimUnchanged` state what it drops and keeps |
| SqlHelper.ParsesAsInt | sql_helper.py:16 | definition: the texts `int()` accepts (ASCII whitespace around, an optional sign, whitespace after the sign, one or more digits); its properties are in `IntToStringParses`, `IntLiteralChars`, `IntLiteralHasNoQuote` and `SpaceAfterSign` |
| SqlHelper.IntToStringLiteral | sql_helper.py:16-17 | the text `str()` writes for an integer is a literal `int()` accepts, and it denotes that integer |
| SqlHelper.IntLiteralChars | sql_helper.py:16 | a literal `int()` accepts is made only of signs, whitespace and digits |
| SqlHelper.SpaceAfterSign | sql_helper.py:16-17 | whitespace between the sign and the digits is accepted: `int('- ' + digits)` is minus the digits' value, and such a text is written into the query as that integer, unquoted |
| SqlHelper.ParseInt | sql_helper.py:16 | definition: the value `int()` gives; `IntToStringParses` and `ZeroPaddedSeven` state what it returns |
| SqlHelper.IntToString | sql_helper.py:17 | definition: `str()` of an integer; `IntToStringParses` and `IntToStringShape` state its meaning |
| SqlHelper.Render | sql_helper.py:14-19 | definition: one value as the loop body writes it; `ReadLiteralRendered` states that it reads back as the value's meaning |
| SqlHelper.RenderAll | sql_helper.py:13-19 | definition: the renderings of all values, in order; `RenderAllStep` states how it grows with the loop |
| SqlHelper.JoinComma | sql_helper.py:21 | definition: `', '.join`; `Separated`, `ReadListStep` and `ReadRendered` state that the separator splits it back into its parts |
| SqlHelper.Header | sql_helper.py:12 | definition: `INSERT INTO `, the table name and the fixed column list `Columns` ending in `VALUES`; `Prefixed` and `InsertQueryHeader` state where each part sits |
| SqlHelper.InsertQuery | sql_helper.py:11-22 | definition: the statement `make_insert_query` returns; `InsertQueryHeader` and `InsertQueryRoundTrip` state its shape and its round trip |
| SqlHelper.RenderAllStep | sql_helper.py:14-19 | rendering one more value appends exactly its rendering, keeping order and count |
| SqlHelper.MakeInsertQuery | sql_helper.py:11-22 | the loop, with the try/except for each value, builds exactly the header followed by `(` + the renderings joined by `, ` + `)`, in input order; the method changes no state |
| SqlHelper.NormalizeAll | sql_helper.py:14-19 | normalising a value list (what reading the query back yields) keeps its length |
| SqlHelper.NormalizeAllFixed | sql_helper.py:14-19 | a list whose every value reads back as itself is unchanged by normalising |
| SqlHelper.IndexOf | sql_helper.py:19 | the first position of a character (the closing quote of a quoted value), or the end when there is none |
| SqlHelper.ReadLiteral | sql_helper.py:17-19 | reading one SQL literal consumes a non-empty prefix of the text |
| SqlHelper.ReadIntRendered | sql_helper.py:17 | an unquoted integer rendering reads back as that integer when a comma or the end follows it |
| SqlHelper.ReadQuotedRendered | sql_helper.py:19 | a quoted rendering of a text with no single quote reads back as that text |
| SqlHelper.ReadLiteralRendered | sql_helper.py:14-19 | every rendering of a quote-free value reads back as its normalised value, consuming exactly the rendering |
| SqlHelper.ReadRenderedSingle | sql_helper.py:14-21 | the rendering of one quote-free value reads back as a one-element list of its normalised value |
| SqlHelper.Separated | sql_helper.py:21 | the `, ` separator marks where one rendering ends and the next begins |
| SqlHelper.ReadListStep | sql_helper.py:21 | a literal followed by `, ` and a readable list reads as that literal before that list |
| SqlHelper.ReadRendered | sql_helper.py:13-21 | the comma-joined renderings of quote-free values read back as the normalised values, in order and count |
| SqlHelper.Enclosed | sql_helper.py:21 | the value list sits between the header's `(` and the final `)` |
| SqlHelper.InsertQueryRoundTrip | sql_helper.py:11-22 | parsing the query yields the value list, normalised, for every list of quote-free values, the empty list included |
| SqlHelper.Prefixed | sql_helper.py:12 | where the keyword, table name and column list sit in the query text |
| SqlHelper.InsertQueryHeader | sql_helper.py:12 | the query begins with `INSERT INTO `, then the table name unquoted, then the fixed column list and `VALUES` |
| SqlHelper.SevenUntrimmed | sql_helper.py:16 | `"007"` has no whitespace for `int()` to strip |
| SqlHelper.SevenDigits | sql_helper.py:16 | `"007"` is all digits, with value 7 |
| SqlHelper.ZeroPaddedSeven | sql_helper.py:16 | `int("007")` is 7 |
| SqlHelper.LeadingZerosDropped | sql_helper.py:15-17 | the text `'007'` is rendered as `7` and the int 0 as `0`, both unquoted |
| SqlHelper.IntLiteralHasNoQuote | sql_helper.py:16 | a text that `int()` accepts holds no single quote |
| SqlHelper.ReadStopsAtQuote | sql_helper.py:19 | a quoted text that holds a single quote does not read back as that text |
| SqlHelper.QuoteNotEscaped | sql_helper.py:18-19 | a text with an embedded quote is wrapped verbatim, with no escaping, so the query does not read back as that text |
| Database.NamesWithFlag | twawler.py:108-116 | the SELECT of names with a given flag returns at most one name per row |
| Database.NamesWithFlagMembers | twawler.py:108-116 | a name is selected exactly when some row with that name carries the flag |
| Database.SetChecked | twawler.py:133-135 | definition: the rows after the UPDATE; `MarkCheckedEffect` states its full effect |
| Database.EvolvesTransitive | twawler.py:133-147 | "only grows, flags only rise" composes over successive statements |
| Database.CheckedStaysChecked | twawler.py:133-135 | once a row is checked it stays checked: no statement sets a flag back to 0 |
| Database.MarkCheckedEffect | twawler.py:133-135 | the UPDATE sets `checked=1` on every row with the seed's name and leaves every other row as it was; it keeps flags 0/1 and leaves the seed out of the unchecked list |
| Database.AppendEvolves | twawler.py:147 | inserting rows only grows the table and changes no existing row |
| Database.NamesPartition | twawler.py:153-161 | with 0/1 flags, the checked and unchecked lists together hold every screen name of the table, counted with multiplicity |
| Database.NamesDisjoint | twawler.py:153-161 | when screen names are unique, no name is in both lists |
| Database.FirstUnchecked | twawler.py:158-162 | the unchecked list is empty exactly when no row has `checked=0`; otherwise its head is the first unchecked row in table order |
| Database.Table.constructor | twawler.py:49-55 | the table starts with the given rows |
| Database.Table.SelectScreenNames | twawler.py:108-116 | definition: the SELECT of names with a flag on the table's rows, which is `NamesWithFlag`; `NamesWithFlagMembers`, `NamesPartition` and `FirstUnchecked` state what it returns |
| Database.Table.MarkChecked | twawler.py:133-135 | the UPDATE statement: the new rows are the old ones with the seed flagged |
| Database.Table.Insert | twawler.py:147 | the INSERT statement: the new row is appended after the old ones |
| Twawler.ConfigPath | twawler.py:23-30 | a non-empty explicit path wins; a missing or empty one gives `appconfig` in the script's directory |
| Twawler.Lower | twawler.py:68 | lower-casing keeps the length |
| Twawler.Upper | twawler.py:68 | upper-casing keeps the length |
| Twawler.OccursShift | twawler.py:69 | an occurrence after the first position is an occurrence in the rest of the text |
| Twawler.Contains | twawler.py:69 | definition: Python's `in` on strings; `ContainsOccurs` states its meaning |
| Twawler.ContainsOccurs | twawler.py:69 | Python's `in` on strings holds exactly when the pattern occurs at some position |
| Twawler.CheckPeru | twawler.py:65-69 | a missing `protected` key raises KeyError, and only then; a protected user never matches |
| Twawler.CheckPeruMatches | twawler.py:65-69 | for an unprotected user, the result matches exactly when the lower-cased location contains `peru` or `perú` |
| Twawler.MissingLocationNeverMatches | twawler.py:68 | a missing location (default `''`) never matches |
| Twawler.LowerUpperChar | twawler.py:68 | lower-casing after upper-casing a character is lower-casing it |
| Twawler.MatchIgnoresCase | twawler.py:68 | upper-casing the location does not change the verdict |
| Twawler.LimaMatches | twawler.py:65-69 | an unprotected user in "Lima, Peru" matches |
| Twawler.ParisDoesNotMatch | twawler.py:65-69 | an unprotected user in "Paris" does not match |
| Twawler.RemoveChar | twawler.py:75-76 | definition: `replace(c, '')`; `RemoveCharRemoves`, `RemoveCharKeepsOthers` and `RemoveCharAppend` state its meaning |
| Twawler.RemoveCharRemoves | twawler.py:75-76 | `replace(c, '')` leaves no `c`, adds no character, and leaves a text without `c` unchanged |
| Twawler.RemoveCharKeepsOthers | twawler.py:75-76 | every other character keeps its number of occurrences |
| Twawler.RemoveCharCons | twawler.py:75-76 | removal works character by character from the front |
| Twawler.RemoveCharAppend | twawler.py:75-76 | removal distributes over concatenation |
| Twawler.StripQuotes | twawler.py:75-76 | no `'` or `"` is left, and a text without either is unchanged |
| Twawler.StripQuotesKeepsOthers | twawler.py:75-76 | every character other than the two quotes keeps its count |
| Twawler.RowOf | twawler.py:73-78 | definition: the row a follower's INSERT denotes: its screen name, its name and location with quotes stripped, flag 0 and its follower count; `QueryValues` and `MakeQueryDenotesRow` tie it to the query |
| Twawler.QueryValues | twawler.py:73-78 | the value list exists exactly when all four keys are present, and it is `[screen_name, stripped name, stripped location, 0, followers_count]` in that order, with screen_name untouched; this is exactly the value list of the follower's row |
| Twawler.SentinelIsNoStatement | twawler.py:83-84 | no INSERT that the helper builds equals the sentinel `'EncodingError'` |
| Twawler.MakeQuery | twawler.py:71-84 | KeyError exactly when a key is missing; the sentinel exactly when the keys are present and encoding fails; otherwise the whole INSERT of the value list, never a partial query |
| Twawler.MakeQueryDenotesRow | twawler.py:71-84 | for a follower with plain text fields, the query is the INSERT of its row, and it reads back as that row |
| Twawler.RowValuesPlain | twawler.py:73-80 | the values of such a row are quote-free and read back as themselves |
| Twawler.RowValuesReadBack | twawler.py:73-80 | the INSERT of such a row parses back to exactly its values |
| Twawler.TakeUntilSlash | twawler.py:93-98 | the result is a prefix without `/`, and it stops only at a `/` or at the end |
| Twawler.TakeUntilSlashUnique | twawler.py:93-98 | those three facts determine the result |
| Twawler.LinkTail | twawler.py:94 | definition: `link[19:]`, empty for a link of 19 characters or fewer; `ScreenNameFromLink` states what is taken from it |
| Twawler.ScreenNameFromLink | twawler.py:93-99 | the name is a prefix of `link[19:]` with no `/`; it is all of `link[19:]` when that has no `/`; it is empty for a link of 19 characters or fewer |
| Twawler.ExtractScreenName | twawler.py:93-99 | the `for`/`break` loop computes exactly that name |
| Twawler.HttpLinkExample | twawler.py:94 | `http://twitter.com/alice_pe/status/1` gives `alice_pe` |
| Twawler.HttpsLinkExample | twawler.py:94 | `https://twitter.com/alice_pe` gives the empty name, because the 19-character offset fits only `http://twitter.com/` |
| Twawler.FollowerActionAsWritten | twawler.py:139-151 | definition: the loop body for one follower as written; `SentinelAbortsAsWritten` and `FatalMeaning` state when it stops the run |
| Twawler.SentinelAbortsAsWritten | twawler.py:83-84 | as written, a qualifying follower whose query hits an encoding error aborts the run |
| Twawler.SentinelAbortExample | twawler.py:83-84 | the same holds for a concrete follower in "Lima, Peru" |
| Twawler.FollowerAction | twawler.py:139-151 | definition: the loop body as intended, where the sentinel drops only its follower; `FollowerActionMeaning` states its meaning |
| Twawler.FollowerActionMeaning | twawler.py:139-151 | with the sentinel dropping only its follower, a follower is never fatal; it is inserted exactly when it matches Peru, has all keys, is in neither list and hits no encoding error; the row inserted is its row, unchecked |
| Twawler.Qualifies | twawler.py:142-144 | definition: the follower matches Peru, has all query keys, and its name is in neither list; `FollowerActionMeaning` and `AdmittedComplete` use it |
| Twawler.RowsFor | twawler.py:139-151 | definition: the rows one follower adds under the corrected body; `RowsForMeaning` states them |
| Twawler.RowsForMeaning | twawler.py:139-151 | the rows one follower adds: its row when it qualifies without fault, else none |
| Twawler.FlatMapAppend | twawler.py:139 | processing two follower lists in turn adds the rows of each, in order |
| Twawler.FlatMapMember | twawler.py:139 | a row is added exactly when some follower adds it |
| Twawler.Admitted | twawler.py:139-151 | definition: the rows for a list of followers, each handled by the corrected body `FollowerAction`, which agrees with the code on every follower that is not fatal; `Crawler.ProcessFollowers` applies it to the followers the loop gets through (`Handled`); `AdmittedSound` and `AdmittedComplete` state which rows these are |
| Twawler.AdmittedAppend | twawler.py:139-151 | a follower that is skipped (filtered out, a KeyError, an encoding error in the execute) does not stop the rest: the rows of a list are the rows of its parts, in order |
| Twawler.AdmittedOne | twawler.py:139-151 | a one-follower list adds that follower's rows |
| Twawler.AdmittedSnoc | twawler.py:139-151 | handling one more follower appends exactly that follower's rows |
| Twawler.AdmittedSound | twawler.py:139-151 | every inserted row is unchecked, is the row of a qualifying follower without fault, and has a name in neither list |
| Twawler.AdmittedComplete | twawler.py:139-151 | under the corrected body, every qualifying follower without fault has its row inserted; for the code as written this holds for the followers before the first fatal one, which is what `Crawler.ProcessFollowers` passes it |
| Twawler.Fatal | twawler.py:145-151 | definition: storing this follower, as written, raises an error nothing catches; `FatalMeaning` states when |
| Twawler.FatalMeaning | twawler.py:139-151 | a follower stops the run exactly when it qualifies and its query hits an encoding failure inside `make_query`, and then it adds no row |
| Twawler.Handled | twawler.py:139-151 | the number of followers the loop gets through: every one before it is not fatal, and the one at it, if any, is fatal |
| Twawler.HandledStep | twawler.py:139-151 | the loop, having got through `k` followers, stops at `k` exactly when follower `k` is fatal |
| Twawler.HandledAll | twawler.py:139-151 | without an encoding failure inside `make_query`, the loop gets through every follower |
| Twawler.QualifiedStored | twawler.py:139-151 | a qualifying follower without fault adds exactly its row |
| Twawler.PlainRow | twawler.py:73-78 | a follower with all query keys and no quote in name or location is stored with its name and location as they are, flag 0 and its follower count |
| Twawler.BobRow | twawler.py:73-78 | bob's name and location hold no quote, so his row keeps them as they are |
| Twawler.BobStored | twawler.py:139-151 | bob in "Lima, Peru", in neither list, is stored unchecked |
| Twawler.BobKnownSkipped | twawler.py:142-144 | bob is not stored again when his name is already in the unchecked list |
| Twawler.CarolSkipped | twawler.py:139-151 | carol in "Paris" adds nothing |
| Twawler.AliceScenario | twawler.py:139-151 | of alice's followers bob and carol, only bob's row is inserted |
| Twawler.VisitEvolves | twawler.py:133-151 | the UPDATE followed by the inserts only grows the table and only raises flags |
| Twawler.VisitKeepsFlagsBinary | twawler.py:133-151 | every flag stays 0 or 1 after a round |
| Twawler.Faulty | twawler.py:137-151 | definition: some follower of a user hits an encoding failure inside `make_query`; `Crawler.Round` and `Crawler.Run` state that an abort implies it |
| Twawler.Crawler.constructor | twawler.py:47-55 | the crawler is bound to the given table and table name |
| Twawler.Crawler.FetchUser | twawler.py:119-126 | the retry loop ends only with a user, the first success; every attempt before it raised; with the fuel spent, every attempt raised |
| Twawler.Crawler.StoreFollower | twawler.py:140-151 | the `try` block for one follower, as written: it stops the run exactly when the follower is fatal, and otherwise adds exactly that follower's rows |
| Twawler.Crawler.ProcessFollowers | twawler.py:139-151 | the follower loop stops exactly when some follower is fatal; it appends, in order, the rows of the followers before the first fatal one, or of all of them |
| Twawler.Crawler.Visit | twawler.py:118-151 | one iteration: no user means no change and no stop; otherwise the user was the answer to some attempt, the new table is the UPDATE followed by the rows of the handled followers, and the run stops exactly when a follower was fatal |
| Twawler.Crawler.Round | twawler.py:118-151 | one iteration, seen from the crawl loop: the table only grows, flags only rise, 0/1 flags stay so, and a stop means some follower of the fetched user hit an encoding failure inside `make_query` |
| Twawler.Crawler.Run | twawler.py:102-162 | the table only grows and no flag goes back to 0; 0/1 flags stay so; an empty unchecked list ends the run with every row checked; otherwise the next seed is the first unchecked name in table order; a run stuck in `GetUser` ends only after every attempt raised; an aborted run fetched a seed with a follower whose query hit an encoding failure |

## Left out

- The `__main__` block: it only builds the crawler and calls `run`.
- Console output (`print`): the text printed is not modelled. In Python 2 a `print` of a unicode text raises `UnicodeEncodeError` when the console cannot encode it. At line 81 that happens inside `make_query`'s `try`, so it is one of the failures the `InMakeQuery` fault stands for. At lines 128-132 nothing catches it, and the run would stop; the model does not have that stop.
- `GetFollowersOfUser` (line 137) raising, for instance on a rate limit: nothing catches it, so the run would stop. `Env.followersOf` always answers, so the model does not have that stop.
- Reading the configuration file (`read_configuration`, `ConfigParser`): this is file I/O. Only the choice of path is modelled.
- Building the Twitter client, the MySQL connection and cursor, and the Google search service: these are foreign libraries. Their answers are parameters (`Env`, `firstLink`).
- The Google `list().execute()` call, and a search result with no items, which would raise: only the link of the first result is modelled.
- Executing SQL inside MySQL: the table is a sequence of rows. An INSERT is modelled by the row its query denotes, and `MakeQueryDenotesRow` / `RowValuesReadBack` connect the two.
- A text field that parses as a number (such as the name "007") reaching MySQL unquoted, and the column conversion that would follow: the model stores the text of the follower as it is.
- SELECT result order: MySQL gives no order without `ORDER BY`. The model assumes the table's insertion order, so "the next seed is the first unchecked row" holds under that assumption.
- MySQL's case-insensitive collation and any unique key on `screen_name`: name comparison is exact, and the model does not reject duplicate rows.
- `commit()`: the code never calls it, so transactions are not modelled.
- Unicode case mapping: `lower()` is modelled for ASCII letters and `Ú`. Other non-ASCII letters are left as they are.
- `int()` of Unicode digits or Unicode whitespace: the grammar covers ASCII whitespace around the literal and after its sign, an optional sign and ASCII digits.
- The exact causes of `UnicodeEncodeError`: whether and where a follower fails to encode is an oracle.
- SqlHelper.Render, SqlHelper.InsertQuery, SqlHelper.MakeInsertQuery: in Python 2, `int()` of a unicode text holding a character from U+0100 up that is neither a digit nor whitespace (an emoji, say) raises `UnicodeEncodeError`, not `ValueError`. `except ValueError` does not catch it, so `make_insert_query` raises instead of quoting the text. The model always quotes such a text. At the level of `make_query` this raise is one of the failures the `InMakeQuery` fault stands for.
- SqlHelper.ReadLiteral, SqlHelper.InsertQueryRoundTrip, Twawler.MakeQueryDenotesRow, Twawler.RowValuesReadBack: the reader ends a quoted literal at the next single quote. MySQL also reads a backslash inside quotes as an escape, so for a text holding `\` (a location ending in `\`, say) MySQL reads the statement differently from this reader. These lemmas describe the statement as this reader reads it, so they say nothing about such texts in MySQL.
- Env.getUser: the oracle is indexed by the screen name and the attempt number, and the attempt number restarts at 0 in every round. So a name that is the seed of two rounds gets the same answers in both, and the model cannot show it succeeding in one round and failing in a later one.
- Env.getUser: the user returned for a screen name is not required to carry that screen name. So `Crawler.Run` does not state that the popped seed's row is checked after its round.
- `while True` and the `while waiting` retry loop: these are bounded by the fuel parameters `rounds` and `patience`. A run that has used up its fuel ends with `RoundsExhausted` or `StillRetrying`. The unbounded runs are not modelled.
- The seed's own `screen_name` key (line 128): a user returned by `GetUser` is assumed to have one.
- Twawler.CheckPeru: its `None` for a protected user is modelled as `false`. The code only ever tests it for truth.
- Exceptions other than KeyError and UnicodeEncodeError inside the follower loop, such as a MySQL error from an INSERT: they stop the run in the code. The model has only the stop caused by executing the sentinel.

## Findings

| source | as written | input that shows it | evidently intended | confidence | as-written member | corrected member |
|---|---|---|---|---|---|---|
| twawler.py:83-84, 145-149 | on a `UnicodeEncodeError`, `make_query` returns the text `'EncodingError'`, and `run` executes that text as SQL; MySQL rejects it with an error that nothing catches, so the whole run stops | an unprotected follower bob in "Lima, Peru", in neither list, whose query hits a `UnicodeEncodeError` | drop only that follower and go on with the rest, as the `except UnicodeEncodeError: pass` around the execute shows | not executed | Twawler.FollowerActionAsWritten, Twawler.SentinelAbortsAsWritten | Twawler.FollowerAction, Twawler.FollowerActionMeaning |
