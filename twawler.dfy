/**
 * The crawler of `twawler.py`: the location filter `check_peru`, the INSERT
 * builder `make_query`, the screen-name extraction of `get_by_google_search`,
 * the configuration path choice, and the crawl loop of `Twawler.run` over the
 * table of module Database.
 *
 * The Twitter API, the Google search service and the text-encoding failures
 * of the Python runtime are replaced by their answers (type Env and the
 * parameters of Run).
 */
module Twawler {
  import opened Wrappers
  import opened SqlHelper
  import opened Database

  /** A user as `AsDict()` gives it: any key may be absent. */
  datatype Profile = Profile(
    screenName: Option<string>,
    name: Option<string>,
    location: Option<string>,
    protected: Option<bool>,
    followersCount: Option<int>)

  /** The result of code that indexes a dict: a value, or a KeyError. */
  datatype Fallible<T> = Ok(value: T) | KeyError

  // ---------------------------------------------------------------------------
  // get_config_path
  // ---------------------------------------------------------------------------

  /** An explicit, non-empty configuration path wins; otherwise `appconfig` beside the script. */
  function ConfigPath(configPath: Option<string>, scriptDir: string): (path: string)
    ensures configPath.Some? && configPath.value != "" ==> path == configPath.value
    ensures configPath.None? || configPath.value == "" ==> path == scriptDir + "/appconfig"
    ensures path != ""
  {
    if configPath.Some? && configPath.value != "" then configPath.value else scriptDir + "/appconfig"
  }

  // ---------------------------------------------------------------------------
  // check_peru
  // ---------------------------------------------------------------------------

  /** Lower-casing of ASCII letters and of 'Ú'; other characters are left alone. */
  function LowerChar(c: char): char
  {
    if 'A' <= c <= 'Z' then (c as int + 32) as char
    else if c == '\U{DA}' then '\U{FA}'
    else c
  }

  function UpperChar(c: char): char
  {
    if 'a' <= c <= 'z' then (c as int - 32) as char
    else if c == '\U{FA}' then '\U{DA}'
    else c
  }

  function Lower(s: string): (r: string)
    ensures |r| == |s|
  {
    seq(|s|, i requires 0 <= i < |s| => LowerChar(s[i]))
  }

  function Upper(s: string): (r: string)
    ensures |r| == |s|
  {
    seq(|s|, i requires 0 <= i < |s| => UpperChar(s[i]))
  }

  /** `t` occurs in `s` starting at index `i`. */
  predicate OccursAt(s: string, t: string, i: int)
  {
    0 <= i && i + |t| <= |s| && s[i..i + |t|] == t
  }

  /** Python's `t in s` on strings. */
  function Contains(s: string, t: string): bool
    decreases |s|
  {
    if |t| > |s| then false
    else if s[..|t|] == t then true
    else Contains(s[1..], t)
  }

  /** Dropping the first character of `s` shifts every later occurrence one place left. */
  lemma OccursShift(s: string, t: string, i: int)
    requires |s| > 0 && i >= 1
    ensures OccursAt(s, t, i) <==> OccursAt(s[1..], t, i - 1)
  {
    if i + |t| <= |s| {
      assert s[1..][i - 1..i - 1 + |t|] == s[i..i + |t|];
    }
  }

  /** `t in s` holds exactly when `t` occurs in `s` at some index. */
  lemma {:induction false} ContainsOccurs(s: string, t: string)
    ensures Contains(s, t) <==> exists i :: OccursAt(s, t, i)
    decreases |s|
  {
    if |t| > |s| {
    } else if s[..|t|] == t {
      assert OccursAt(s, t, 0);
    } else {
      ContainsOccurs(s[1..], t);
      forall i | OccursAt(s, t, i) ensures OccursAt(s[1..], t, i - 1) {
        assert i != 0;
        OccursShift(s, t, i);
      }
      forall i | OccursAt(s[1..], t, i) ensures OccursAt(s, t, i + 1) {
        OccursShift(s, t, i + 1);
      }
    }
  }

  const Peru: string := "peru"
  const PeruAccented: string := ['p', 'e', 'r', '\U{FA}']

  /**
   * `check_peru`: KeyError when the profile has no `protected` key; no match
   * for a protected user (Python returns None there, falsy); otherwise a
   * match exactly when the lower-cased location, `''` when absent, contains
   * "peru" or "perú".
   */
  function CheckPeru(p: Profile): (r: Fallible<bool>)
    ensures r.KeyError? <==> p.protected.None?
    ensures p.protected == Some(true) ==> r == Ok(false)
  {
    match p.protected
    case None => KeyError
    case Some(isProtected) =>
      if !isProtected then
        var location := Lower(p.location.GetOr(""));
        Ok(Contains(location, Peru) || Contains(location, PeruAccented))
      else Ok(false)
  }

  /** An unprotected user matches exactly when "peru" or "perú" occurs in the lower-cased location. */
  lemma CheckPeruMatches(p: Profile)
    requires p.protected == Some(false)
    ensures CheckPeru(p) == Ok(true) <==>
      exists i :: OccursAt(Lower(p.location.GetOr("")), Peru, i) || OccursAt(Lower(p.location.GetOr("")), PeruAccented, i)
    ensures CheckPeru(p).Ok?
  {
    ContainsOccurs(Lower(p.location.GetOr("")), Peru);
    ContainsOccurs(Lower(p.location.GetOr("")), PeruAccented);
  }

  /** A follower without a location never matches. */
  lemma MissingLocationNeverMatches(p: Profile)
    requires p.location.None?
    ensures CheckPeru(p) != Ok(true)
  {
    assert Lower("") == "";
  }

  lemma LowerUpperChar(c: char)
    ensures LowerChar(UpperChar(c)) == LowerChar(c)
  {
  }

  /** The filter ignores case: an upper-cased location matches exactly when the original does. */
  lemma MatchIgnoresCase(p: Profile, location: string)
    ensures CheckPeru(p.(location := Some(Upper(location)))) == CheckPeru(p.(location := Some(location)))
  {
    forall i | 0 <= i < |location| ensures Lower(Upper(location))[i] == Lower(location)[i] {
      LowerUpperChar(location[i]);
    }
    assert Lower(Upper(location)) == Lower(location);
  }

  /** "Lima, Peru" matches, for an unprotected user. */
  lemma LimaMatches(p: Profile)
    requires p.protected == Some(false)
    ensures CheckPeru(p.(location := Some("Lima, Peru"))) == Ok(true)
  {
    var lima := Lower("Lima, Peru");
    assert lima[6] == 'p' && lima[7] == 'e' && lima[8] == 'r' && lima[9] == 'u';
    assert lima[6..10] == Peru;
    assert OccursAt(lima, Peru, 6);
    ContainsOccurs(lima, Peru);
  }

  /** "Paris" does not match. */
  lemma ParisDoesNotMatch(p: Profile)
    requires p.protected == Some(false)
    ensures CheckPeru(p.(location := Some("Paris"))) == Ok(false)
  {
    var paris := Lower("Paris");
    assert paris[0] == 'p' && paris[1] == 'a';
    forall i | 0 <= i <= 1 ensures !OccursAt(paris, Peru, i) && !OccursAt(paris, PeruAccented, i) {
      if i == 0 {
        assert paris[0..4][1] == 'a';
      } else {
        assert paris[1..5][0] == 'a';
      }
    }
    ContainsOccurs(paris, Peru);
    ContainsOccurs(paris, PeruAccented);
  }

  // ---------------------------------------------------------------------------
  // make_query
  // ---------------------------------------------------------------------------

  /** Python's `s.replace(c, '')`. */
  function RemoveChar(s: string, c: char): string
  {
    if s == [] then [] else (if s[0] == c then [] else [s[0]]) + RemoveChar(s[1..], c)
  }

  /** No `c` remains, no character is added, and text without `c` is left as it is. */
  lemma {:induction false} RemoveCharRemoves(s: string, c: char)
    ensures c !in RemoveChar(s, c)
    ensures forall x :: x in RemoveChar(s, c) ==> x in s
    ensures c !in s ==> RemoveChar(s, c) == s
  {
    if s != [] {
      RemoveCharRemoves(s[1..], c);
      var head := if s[0] == c then [] else [s[0]];
      var rest := RemoveChar(s[1..], c);
      assert RemoveChar(s, c) == head + rest;
      forall x | x in head + rest ensures x in s {
        if x !in head {
          assert x in rest;
          assert x in s[1..];
        }
      }
      if c !in s {
        assert s == [s[0]] + s[1..];
      }
    }
  }

  /** Every other character keeps its number of occurrences. */
  lemma {:induction false} RemoveCharKeepsOthers(s: string, c: char, x: char)
    requires x != c
    ensures multiset(RemoveChar(s, c))[x] == multiset(s)[x]
  {
    if s != [] {
      RemoveCharKeepsOthers(s[1..], c, x);
      var head := if s[0] == c then [] else [s[0]];
      assert RemoveChar(s, c) == head + RemoveChar(s[1..], c);
      assert multiset(RemoveChar(s, c)) == multiset(head) + multiset(RemoveChar(s[1..], c));
      assert s == [s[0]] + s[1..];
      assert multiset(s) == multiset([s[0]]) + multiset(s[1..]);
    }
  }

  lemma RemoveCharCons(x: char, s: string, c: char)
    ensures RemoveChar([x] + s, c) == (if x == c then [] else [x]) + RemoveChar(s, c)
  {
    assert ([x] + s)[0] == x;
    assert ([x] + s)[1..] == s;
  }

  /** Removing a character works piece by piece, so the other characters keep their order. */
  lemma {:induction false} RemoveCharAppend(a: string, b: string, c: char)
    ensures RemoveChar(a + b, c) == RemoveChar(a, c) + RemoveChar(b, c)
  {
    if a != [] {
      var x, rest := a[0], a[1..];
      assert a == [x] + rest;
      assert a + b == [x] + (rest + b);
      RemoveCharCons(x, rest, c);
      RemoveCharCons(x, rest + b, c);
      RemoveCharAppend(rest, b, c);
      var head := if x == c then [] else [x];
      assert head + (RemoveChar(rest, c) + RemoveChar(b, c)) == (head + RemoveChar(rest, c)) + RemoveChar(b, c);
    } else {
      assert a + b == b;
    }
  }

  /** `.replace('\'', '').replace('"', '')`: no quote of either kind remains; quote-free text is unchanged. */
  function StripQuotes(s: string): (r: string)
    ensures '\'' !in r && '"' !in r
    ensures '\'' !in s && '"' !in s ==> r == s
  {
    var t := RemoveChar(s, '\'');
    RemoveCharRemoves(s, '\'');
    RemoveCharRemoves(t, '"');
    RemoveChar(t, '"')
  }

  /** Every character other than a quote keeps its number of occurrences. */
  lemma StripQuotesKeepsOthers(s: string, x: char)
    requires x != '\'' && x != '"'
    ensures multiset(StripQuotes(s))[x] == multiset(s)[x]
  {
    RemoveCharKeepsOthers(s, '\'', x);
    RemoveCharKeepsOthers(RemoveChar(s, '\''), '"', x);
  }

  predicate HasQueryKeys(p: Profile)
  {
    p.screenName.Some? && p.name.Some? && p.location.Some? && p.followersCount.Some?
  }

  /** The row an INSERT from `make_query` adds to the table. */
  function RowOf(p: Profile): Row
    requires HasQueryKeys(p)
  {
    Row(p.screenName.value, StripQuotes(p.name.value), StripQuotes(p.location.value), 0, p.followersCount.value)
  }

  /** A row as the value list of an INSERT, column by column. */
  function RowValues(row: Row): seq<Value>
  {
    [Text(row.screenName), Text(row.name), Text(row.location), Int(row.checked), Int(row.followerCount)]
  }

  /**
   * The `values` list of `make_query`: screen name untouched, name and
   * location without quotes, checked 0, follower count; KeyError when one
   * of the four keys is missing.
   */
  function QueryValues(p: Profile): (r: Fallible<seq<Value>>)
    ensures r.Ok? <==> HasQueryKeys(p)
    ensures r.Ok? ==>
      && |r.value| == 5
      && r.value[0] == Text(p.screenName.value)
      && r.value[1].Text? && '\'' !in r.value[1].s && '"' !in r.value[1].s
      && r.value[2].Text? && '\'' !in r.value[2].s && '"' !in r.value[2].s
      && r.value[3] == Int(0)
      && r.value[4] == Int(p.followersCount.value)
    ensures r.Ok? ==> r.value == RowValues(RowOf(p))
  {
    if HasQueryKeys(p) then
      Ok([Text(p.screenName.value),
          Text(StripQuotes(p.name.value)),
          Text(StripQuotes(p.location.value)),
          Int(0),
          Int(p.followersCount.value)])
    else KeyError
  }

  /** What `make_query` returns when building the query hits a UnicodeEncodeError. */
  const EncodingErrorSentinel: string := "EncodingError"

  /** No statement the serialiser produces can be mistaken for the sentinel. */
  lemma SentinelIsNoStatement(table: string, values: seq<Value>)
    ensures InsertQuery(table, values) != EncodingErrorSentinel
  {
    assert InsertQuery(table, values)[0] == 'I';
  }

  /**
   * `make_query`: KeyError when a key is missing; the sentinel, and no part of
   * a query, when encoding fails; otherwise the INSERT for the values list.
   */
  function MakeQuery(table: string, p: Profile, encodingFails: bool): (r: Fallible<string>)
    ensures r.KeyError? <==> !HasQueryKeys(p)
    ensures r == Ok(EncodingErrorSentinel) <==> HasQueryKeys(p) && encodingFails
    ensures r.Ok? && !encodingFails ==> r.value == InsertQuery(table, QueryValues(p).value)
  {
    match QueryValues(p)
    case KeyError => KeyError
    case Ok(values) =>
      SentinelIsNoStatement(table, values);
      if encodingFails then Ok(EncodingErrorSentinel) else Ok(InsertQuery(table, values))
  }

  /**
   * The statement `make_query` builds is an INSERT into the table whose value
   * list reads back as exactly the follower's row: screen name, quote-free
   * name and location, flag 0, follower count, in that order (texts that
   * `int()` accepts excepted: those are written as numbers).
   */
  lemma MakeQueryDenotesRow(table: string, p: Profile)
    requires HasQueryKeys(p) && '\'' !in p.screenName.value
    requires !ParsesAsInt(p.screenName.value)
    requires !ParsesAsInt(StripQuotes(p.name.value)) && !ParsesAsInt(StripQuotes(p.location.value))
    ensures MakeQuery(table, p, false) == Ok(InsertQuery(table, RowValues(RowOf(p))))
    ensures ParseInsert(table, InsertQuery(table, RowValues(RowOf(p)))) == Some(RowValues(RowOf(p)))
  {
    var row := RowOf(p);
    assert QueryValues(p) == Ok(RowValues(row));
    RowValuesReadBack(table, row);
  }

  /** Quote-free texts that `int()` rejects, and ints, are each their own meaning. */
  lemma RowValuesPlain(row: Row)
    requires '\'' !in row.screenName && '\'' !in row.name && '\'' !in row.location
    requires !ParsesAsInt(row.screenName) && !ParsesAsInt(row.name) && !ParsesAsInt(row.location)
    ensures forall k :: 0 <= k < |RowValues(row)| ==>
      QuoteFree(RowValues(row)[k]) && Normalize(RowValues(row)[k]) == RowValues(row)[k]
  {
    var values := RowValues(row);
    forall k | 0 <= k < |values| ensures QuoteFree(values[k]) && Normalize(values[k]) == values[k] {
      if k == 0 {
        assert values[k] == Text(row.screenName);
      } else if k == 1 {
        assert values[k] == Text(row.name);
      } else if k == 2 {
        assert values[k] == Text(row.location);
      } else {
        assert values[k].Int?;
      }
    }
  }

  lemma RowValuesReadBack(table: string, row: Row)
    requires '\'' !in row.screenName && '\'' !in row.name && '\'' !in row.location
    requires !ParsesAsInt(row.screenName) && !ParsesAsInt(row.name) && !ParsesAsInt(row.location)
    ensures ParseInsert(table, InsertQuery(table, RowValues(row))) == Some(RowValues(row))
  {
    RowValuesPlain(row);
    InsertQueryRoundTrip(table, RowValues(row));
    NormalizeAllFixed(RowValues(row));
  }

  // ---------------------------------------------------------------------------
  // get_by_google_search: the screen name in the first result's link
  // ---------------------------------------------------------------------------

  /** The longest prefix of `s` without '/'. */
  function TakeUntilSlash(s: string): (r: string)
    ensures |r| <= |s| && r == s[..|r|]
    ensures '/' !in r
    ensures |r| < |s| ==> s[|r|] == '/'
  {
    if s == [] || s[0] == '/' then [] else [s[0]] + TakeUntilSlash(s[1..])
  }

  /** Those three properties pin the prefix down. */
  lemma TakeUntilSlashUnique(s: string, r: string)
    requires |r| <= |s| && r == s[..|r|] && '/' !in r && (|r| < |s| ==> s[|r|] == '/')
    ensures r == TakeUntilSlash(s)
  {
  }

  /** Python's `link[19:]`: empty for a link of 19 characters or fewer. */
  function LinkTail(link: string): string
  {
    if |link| <= 19 then "" else link[19..]
  }

  /**
   * The screen name taken from a result link: a prefix of `link[19:]` free of
   * '/', stopping only at a '/' or at the end; empty for a short link.
   */
  function ScreenNameFromLink(link: string): (name: string)
    ensures |name| <= |LinkTail(link)| && name == LinkTail(link)[..|name|]
    ensures '/' !in name
    ensures |name| < |LinkTail(link)| ==> LinkTail(link)[|name|] == '/'
    ensures |link| <= 19 ==> name == ""
  {
    TakeUntilSlash(LinkTail(link))
  }

  /** The character loop of `get_by_google_search`, with its `break` at the first '/'. */
  method ExtractScreenName(link: string) returns (screenName: string)
    ensures screenName == ScreenNameFromLink(link)
  {
    screenName := "";
    var tail := if |link| <= 19 then "" else link[19..];
    var k := 0;
    while k < |tail|
      invariant 0 <= k <= |tail|
      invariant screenName == tail[..k]
      invariant '/' !in screenName
    {
      if tail[k] != '/' {
        screenName := screenName + [tail[k]];
        k := k + 1;
      } else {
        break;
      }
    }
    TakeUntilSlashUnique(tail, screenName);
  }

  /** The offset 19 fits "http://twitter.com/": the screen name after it is found. */
  lemma HttpLinkExample()
    ensures ScreenNameFromLink("http://twitter.com/alice_pe/status/1") == "alice_pe"
  {
    var tail := LinkTail("http://twitter.com/alice_pe/status/1");
    assert tail == "alice_pe/status/1";
    var name := "alice_pe";
    assert name == tail[..8];
    assert forall i :: 0 <= i < |name| ==> name[i] != '/';
    assert tail[8] == '/';
    TakeUntilSlashUnique(tail, name);
  }

  /** An "https://twitter.com/" link has '/' at offset 19, so the extracted screen name is empty. */
  lemma HttpsLinkExample()
    ensures ScreenNameFromLink("https://twitter.com/alice_pe") == ""
  {
    var tail := LinkTail("https://twitter.com/alice_pe");
    assert tail[0] == '/';
  }

  // ---------------------------------------------------------------------------
  // Twawler.run: one follower at a time
  // ---------------------------------------------------------------------------

  /** Where a UnicodeEncodeError strikes while a follower is stored, if at all. */
  datatype EncodingFault = NoFault | InMakeQuery | InExecute

  /** What the loop body of lines 139-151 does with one follower. */
  datatype Action = Insert(row: Row) | Skip | Abort

  /**
   * The follower passes `check_peru`, has every key `make_query` reads, and
   * its screen name is in neither snapshot list.
   */
  predicate Qualifies(p: Profile, checked: seq<string>, peruvians: seq<string>)
  {
    && CheckPeru(p) == Ok(true)
    && HasQueryKeys(p)
    && p.screenName.value !in checked
    && p.screenName.value !in peruvians
  }

  /**
   * The loop body as written: a KeyError anywhere skips the follower, a
   * UnicodeEncodeError inside `execute` skips it, but the sentinel returned by
   * `make_query` is itself executed as SQL, and the syntax error that raises
   * is caught by nothing, so the run stops.
   */
  function FollowerActionAsWritten(table: string, p: Profile, checked: seq<string>, peruvians: seq<string>,
                                   fault: EncodingFault): Action
  {
    match CheckPeru(p)
    case KeyError => Skip
    case Ok(matches) =>
      if !matches || p.screenName.None? then Skip
      else if p.screenName.value in checked || p.screenName.value in peruvians then Skip
      else
        match MakeQuery(table, p, fault == InMakeQuery)
        case KeyError => Skip
        case Ok(sql) =>
          if sql == EncodingErrorSentinel then Abort
          else if fault == InExecute then Skip
          else Insert(RowOf(p))
  }

  /** A qualifying follower whose query hits an encoding failure stops the whole run as written. */
  lemma SentinelAbortsAsWritten(table: string, p: Profile, checked: seq<string>, peruvians: seq<string>)
    requires Qualifies(p, checked, peruvians)
    ensures FollowerActionAsWritten(table, p, checked, peruvians, InMakeQuery) == Abort
  {
  }

  /** A concrete follower for which that happens. */
  lemma SentinelAbortExample()
    ensures FollowerActionAsWritten("peruvians",
      Profile(Some("bob"), Some("Bob"), Some("Lima, Peru"), Some(false), Some(12)), [], [], InMakeQuery) == Abort
  {
    var p := Profile(Some("bob"), Some("Bob"), Some("Lima, Peru"), Some(false), Some(12));
    LimaMatches(p);
    assert p == p.(location := Some("Lima, Peru"));
    SentinelAbortsAsWritten("peruvians", p, [], []);
  }

  /**
   * The loop body as intended: an encoding failure drops only this follower,
   * wherever it strikes. It never stops the run, and it inserts exactly the
   * qualifying followers that store without fault, each with flag 0.
   */
  function FollowerAction(table: string, p: Profile, checked: seq<string>, peruvians: seq<string>,
                          fault: EncodingFault): Action
  {
    var written := FollowerActionAsWritten(table, p, checked, peruvians, fault);
    if written.Abort? then Skip else written
  }

  /**
   * The corrected body never stops the run, and inserts exactly the qualifying
   * followers that store without fault, as their row with flag 0.
   */
  lemma FollowerActionMeaning(table: string, p: Profile, checked: seq<string>, peruvians: seq<string>,
                              fault: EncodingFault)
    ensures var a := FollowerAction(table, p, checked, peruvians, fault);
      && !a.Abort?
      && (a.Insert? <==> Qualifies(p, checked, peruvians) && fault == NoFault)
      && (a.Insert? ==> a.row == RowOf(p) && a.row.checked == 0)
  {
    var written := FollowerActionAsWritten(table, p, checked, peruvians, fault);
    if !Qualifies(p, checked, peruvians) {
      assert written == Skip;
    } else {
      var sql := MakeQuery(table, p, fault == InMakeQuery);
      assert sql.Ok? && (sql.value == EncodingErrorSentinel <==> fault == InMakeQuery);
      assert written == if fault == InMakeQuery then Abort else if fault == InExecute then Skip else Insert(RowOf(p));
    }
  }

  /** The rows the loop body adds for one follower: its row when inserted, nothing otherwise. */
  function RowsFor(table: string, p: Profile, checked: seq<string>, peruvians: seq<string>,
                   fault: EncodingFault): seq<Row>
  {
    var a := FollowerAction(table, p, checked, peruvians, fault);
    if a.Insert? then [a.row] else []
  }

  /** A follower contributes its row exactly when it qualifies and stores without fault. */
  lemma RowsForMeaning(table: string, p: Profile, checked: seq<string>, peruvians: seq<string>,
                       fault: EncodingFault)
    ensures RowsFor(table, p, checked, peruvians, fault)
         == if Qualifies(p, checked, peruvians) && fault == NoFault then [RowOf(p)] else []
  {
    FollowerActionMeaning(table, p, checked, peruvians, fault);
  }

  /** `f` applied to each element in turn, the results concatenated. */
  function FlatMap<T, U>(f: T -> seq<U>, xs: seq<T>): seq<U>
  {
    if xs == [] then [] else f(xs[0]) + FlatMap(f, xs[1..])
  }

  lemma {:induction false} FlatMapAppend<T, U>(f: T -> seq<U>, xs: seq<T>, ys: seq<T>)
    ensures FlatMap(f, xs + ys) == FlatMap(f, xs) + FlatMap(f, ys)
  {
    if xs == [] {
      assert xs + ys == ys;
    } else {
      assert (xs + ys)[0] == xs[0];
      assert (xs + ys)[1..] == xs[1..] + ys;
      FlatMapAppend(f, xs[1..], ys);
    }
  }

  /** An element of the result comes from the part of some element of the input. */
  lemma {:induction false} FlatMapMember<T, U>(f: T -> seq<U>, xs: seq<T>, u: U)
    ensures u in FlatMap(f, xs) <==> exists x :: x in xs && u in f(x)
  {
    if xs != [] {
      FlatMapMember(f, xs[1..], u);
      assert forall x :: x in xs <==> x == xs[0] || x in xs[1..];
    }
  }

  /**
   * The rows for a list of followers, in follower order, each follower
   * handled by the corrected body `FollowerAction`. That body agrees with
   * the code on every follower that is not fatal, so these are the rows the
   * loop inserts for the followers it gets through (`Handled`).
   */
  function Admitted(table: string, followers: seq<Profile>, checked: seq<string>, peruvians: seq<string>,
                    fault: Profile -> EncodingFault): seq<Row>
  {
    FlatMap((p: Profile) => RowsFor(table, p, checked, peruvians, fault(p)), followers)
  }

  /** Followers are handled one by one: skipping one leaves the handling of the rest unchanged. */
  lemma AdmittedAppend(table: string, xs: seq<Profile>, ys: seq<Profile>,
                       checked: seq<string>, peruvians: seq<string>, fault: Profile -> EncodingFault)
    ensures Admitted(table, xs + ys, checked, peruvians, fault)
         == Admitted(table, xs, checked, peruvians, fault) + Admitted(table, ys, checked, peruvians, fault)
  {
    FlatMapAppend((p: Profile) => RowsFor(table, p, checked, peruvians, fault(p)), xs, ys);
  }

  /** A single follower contributes exactly its own rows. */
  lemma AdmittedOne(table: string, p: Profile, checked: seq<string>, peruvians: seq<string>,
                    fault: Profile -> EncodingFault)
    ensures Admitted(table, [p], checked, peruvians, fault) == RowsFor(table, p, checked, peruvians, fault(p))
  {
    var f := (p: Profile) => RowsFor(table, p, checked, peruvians, fault(p));
    assert [p][1..] == [];
    assert FlatMap(f, [p]) == f(p) + [];
  }

  /** Handling one more follower appends that follower's rows. */
  lemma AdmittedSnoc(table: string, followers: seq<Profile>, k: nat, checked: seq<string>, peruvians: seq<string>,
                     fault: Profile -> EncodingFault)
    requires k < |followers|
    ensures Admitted(table, followers[..k + 1], checked, peruvians, fault)
         == Admitted(table, followers[..k], checked, peruvians, fault)
            + RowsFor(table, followers[k], checked, peruvians, fault(followers[k]))
  {
    AdmittedAppend(table, followers[..k], [followers[k]], checked, peruvians, fault);
    AdmittedOne(table, followers[k], checked, peruvians, fault);
    assert followers[..k + 1] == followers[..k] + [followers[k]];
  }

  /**
   * Every inserted row has flag 0 and comes from a qualifying follower, so
   * its name was in neither snapshot list.
   */
  lemma AdmittedSound(table: string, followers: seq<Profile>, checked: seq<string>,
                      peruvians: seq<string>, fault: Profile -> EncodingFault)
    ensures forall r :: r in Admitted(table, followers, checked, peruvians, fault) ==>
      && r.checked == 0 && r.screenName !in checked && r.screenName !in peruvians
      && exists p :: p in followers && Qualifies(p, checked, peruvians) && fault(p) == NoFault && r == RowOf(p)
  {
    var f := (p: Profile) => RowsFor(table, p, checked, peruvians, fault(p));
    forall r | r in Admitted(table, followers, checked, peruvians, fault)
      ensures && r.checked == 0 && r.screenName !in checked && r.screenName !in peruvians
              && exists p :: p in followers && Qualifies(p, checked, peruvians) && fault(p) == NoFault && r == RowOf(p)
    {
      FlatMapMember(f, followers, r);
      var p :| p in followers && r in f(p);
      FollowerActionMeaning(table, p, checked, peruvians, fault(p));
    }
  }

  /**
   * Under the corrected body, every qualifying follower that stores without
   * an encoding fault has its row among the admitted rows; in the code as
   * written this holds for the followers before the first fatal one.
   */
  lemma AdmittedComplete(table: string, followers: seq<Profile>, checked: seq<string>,
                         peruvians: seq<string>, fault: Profile -> EncodingFault, p: Profile)
    requires p in followers && Qualifies(p, checked, peruvians) && fault(p) == NoFault
    ensures RowOf(p) in Admitted(table, followers, checked, peruvians, fault)
  {
    var f := (p: Profile) => RowsFor(table, p, checked, peruvians, fault(p));
    FollowerActionMeaning(table, p, checked, peruvians, fault(p));
    assert RowOf(p) in f(p);
    FlatMapMember(f, followers, RowOf(p));
  }

  /** As written, storing this follower raises an error nothing catches, and the run stops. */
  predicate Fatal(table: string, p: Profile, checked: seq<string>, peruvians: seq<string>, fault: EncodingFault)
  {
    FollowerActionAsWritten(table, p, checked, peruvians, fault).Abort?
  }

  /**
   * A follower stops the run exactly when it qualifies and its query hits an
   * encoding failure; such a follower adds no row.
   */
  lemma FatalMeaning(table: string, p: Profile, checked: seq<string>, peruvians: seq<string>, fault: EncodingFault)
    ensures Fatal(table, p, checked, peruvians, fault) <==> Qualifies(p, checked, peruvians) && fault == InMakeQuery
    ensures Fatal(table, p, checked, peruvians, fault) ==> RowsFor(table, p, checked, peruvians, fault) == []
  {
    var written := FollowerActionAsWritten(table, p, checked, peruvians, fault);
    if !Qualifies(p, checked, peruvians) {
      assert written == Skip;
    } else {
      var sql := MakeQuery(table, p, fault == InMakeQuery);
      assert sql.Ok? && (sql.value == EncodingErrorSentinel <==> fault == InMakeQuery);
    }
  }

  /**
   * How many followers the loop as written handles: those before the first
   * fatal one, or all of them when none is fatal.
   */
  function Handled(table: string, followers: seq<Profile>, checked: seq<string>, peruvians: seq<string>,
                   fault: Profile -> EncodingFault): (n: nat)
    ensures n <= |followers|
    ensures forall j :: 0 <= j < n ==> !Fatal(table, followers[j], checked, peruvians, fault(followers[j]))
    ensures n < |followers| ==> Fatal(table, followers[n], checked, peruvians, fault(followers[n]))
  {
    if followers == [] then 0
    else if Fatal(table, followers[0], checked, peruvians, fault(followers[0])) then 0
    else
      var n := 1 + Handled(table, followers[1..], checked, peruvians, fault);
      assert forall j :: 1 <= j < n ==> followers[j] == followers[1..][j - 1];
      n
  }

  /** Where the loop as written is after handling `k` followers: stopped at `k`, or past it. */
  lemma HandledStep(table: string, followers: seq<Profile>, checked: seq<string>, peruvians: seq<string>,
                    fault: Profile -> EncodingFault, k: nat)
    requires k < |followers| && k <= Handled(table, followers, checked, peruvians, fault)
    ensures Fatal(table, followers[k], checked, peruvians, fault(followers[k]))
            <==> Handled(table, followers, checked, peruvians, fault) == k
  {
  }

  /** Without an encoding failure inside `make_query`, every follower is handled. */
  lemma HandledAll(table: string, followers: seq<Profile>, checked: seq<string>, peruvians: seq<string>,
                   fault: Profile -> EncodingFault)
    requires forall p :: p in followers ==> fault(p) != InMakeQuery
    ensures Handled(table, followers, checked, peruvians, fault) == |followers|
  {
    var n := Handled(table, followers, checked, peruvians, fault);
    if n < |followers| {
      assert followers[n] in followers;
      FatalMeaning(table, followers[n], checked, peruvians, fault(followers[n]));
    }
  }

  /** bob, in "Lima, Peru", qualifies and is stored as his row with flag 0. */
  lemma BobStored(table: string, bob: Profile)
    requires bob == Profile(Some("bob"), Some("Bob"), Some("Lima, Peru"), Some(false), Some(12))
    ensures RowsFor(table, bob, [], [], NoFault) == [Row("bob", "Bob", "Lima, Peru", 0, 12)]
  {
    LimaMatches(bob);
    QualifiedStored(table, bob, [], []);
    BobRow(bob);
  }

  /** A follower who qualifies and stores without fault contributes its row. */
  lemma QualifiedStored(table: string, p: Profile, checked: seq<string>, peruvians: seq<string>)
    requires Qualifies(p, checked, peruvians)
    ensures RowsFor(table, p, checked, peruvians, NoFault) == [RowOf(p)]
  {
    RowsForMeaning(table, p, checked, peruvians, NoFault);
  }

  /** A follower whose name and location hold no quote is stored with them as they are. */
  lemma PlainRow(p: Profile)
    requires HasQueryKeys(p)
    requires '\'' !in p.name.value && '"' !in p.name.value
    requires '\'' !in p.location.value && '"' !in p.location.value
    ensures RowOf(p) == Row(p.screenName.value, p.name.value, p.location.value, 0, p.followersCount.value)
  {
  }

  /** bob's name and location hold no quote, so his row keeps them as they are. */
  lemma BobRow(bob: Profile)
    requires bob == Profile(Some("bob"), Some("Bob"), Some("Lima, Peru"), Some(false), Some(12))
    ensures HasQueryKeys(bob) && RowOf(bob) == Row("bob", "Bob", "Lima, Peru", 0, 12)
  {
    var name, location := "Bob", "Lima, Peru";
    assert '\'' !in name && '"' !in name;
    assert '\'' !in location && '"' !in location;
    PlainRow(bob);
  }

  /** bob is not stored again once his name is in the unchecked list. */
  lemma BobKnownSkipped(table: string, bob: Profile)
    requires bob == Profile(Some("bob"), Some("Bob"), Some("Lima, Peru"), Some(false), Some(12))
    ensures RowsFor(table, bob, [], ["bob"], NoFault) == []
  {
    assert "bob" in ["bob"];
    RowsForMeaning(table, bob, [], ["bob"], NoFault);
  }

  /** carol, in "Paris", does not qualify. */
  lemma CarolSkipped(table: string, carol: Profile)
    requires carol == Profile(Some("carol"), Some("Carol"), Some("Paris"), Some(false), Some(3))
    ensures RowsFor(table, carol, [], [], NoFault) == []
  {
    ParisDoesNotMatch(carol);
    assert carol == carol.(location := Some("Paris"));
    RowsForMeaning(table, carol, [], [], NoFault);
  }

  /**
   * Seed alice has two followers: bob in "Lima, Peru" is stored, unchecked;
   * carol in "Paris" is not.
   */
  lemma AliceScenario(table: string, bob: Profile, carol: Profile, fault: Profile -> EncodingFault)
    requires bob == Profile(Some("bob"), Some("Bob"), Some("Lima, Peru"), Some(false), Some(12))
    requires carol == Profile(Some("carol"), Some("Carol"), Some("Paris"), Some(false), Some(3))
    requires fault(bob) == NoFault && fault(carol) == NoFault
    ensures Admitted(table, [bob, carol], [], [], fault) == [Row("bob", "Bob", "Lima, Peru", 0, 12)]
  {
    BobStored(table, bob);
    CarolSkipped(table, carol);
    AdmittedAppend(table, [bob], [carol], [], [], fault);
    AdmittedOne(table, bob, [], [], fault);
    AdmittedOne(table, carol, [], [], fault);
    assert [bob] + [carol] == [bob, carol];
  }

  /** An UPDATE followed by inserts only grows the table and raises flags. */
  lemma VisitEvolves(rows: seq<Row>, seed: string, added: seq<Row>)
    ensures Evolves(rows, SetChecked(rows, seed) + added)
  {
    MarkCheckedEffect(rows, seed);
    AppendEvolves(SetChecked(rows, seed), added);
    EvolvesTransitive(rows, SetChecked(rows, seed), SetChecked(rows, seed) + added);
  }

  /** With 0/1 flags before, flags are 0/1 after an UPDATE and the follower inserts. */
  lemma VisitKeepsFlagsBinary(rows: seq<Row>, seed: string, table: string, followers: seq<Profile>,
                              checked: seq<string>, peruvians: seq<string>, fault: Profile -> EncodingFault)
    requires FlagsBinary(rows)
    ensures FlagsBinary(SetChecked(rows, seed) + Admitted(table, followers, checked, peruvians, fault))
  {
    var added := Admitted(table, followers, checked, peruvians, fault);
    AdmittedSound(table, followers, checked, peruvians, fault);
    MarkCheckedEffect(rows, seed);
    var after := SetChecked(rows, seed) + added;
    forall i | 0 <= i < |after| ensures after[i].checked == 0 || after[i].checked == 1 {
      if i >= |rows| {
        assert after[i] == added[i - |rows|];
        assert added[i - |rows|] in added;
      }
    }
  }

  // ---------------------------------------------------------------------------
  // Twawler.run: the crawl loop
  // ---------------------------------------------------------------------------

  datatype User = User(screenName: string)

  /** The answers of the outside world. */
  datatype Env = Env(
    getUser: (string, nat) -> Option<User>,  // attempt k of `GetUser(name)`: the user, or None when it raised
    followersOf: User -> seq<Profile>,       // `GetFollowersOfUser(user)`
    fault: Profile -> EncodingFault)         // whether storing a follower hits a UnicodeEncodeError, and where

  /** How the modelled run ends. */
  datatype RunEnd =
    | FrontierEmpty                      // `peruvians.pop(0)` raised on an empty list
    | RoundsExhausted(next: string)      // the bound on iterations was reached; `next` is the next seed
    | StillRetrying(query: string)       // every allowed `GetUser(query)` attempt raised
    | Aborted(seed: string)              // storing a follower of `seed` raised an error nothing catches

  /** Some follower of `user` hits an encoding failure inside `make_query`. */
  predicate Faulty(env: Env, user: User)
  {
    exists p :: p in env.followersOf(user) && env.fault(p) == InMakeQuery
  }

  class Crawler {
    const db: Table
    const tableName: string

    constructor (db: Table, tableName: string)
      ensures this.db == db && this.tableName == tableName
    {
      this.db := db;
      this.tableName := tableName;
    }

    /**
     * The `while waiting` loop: calls `GetUser(query)` until one call
     * succeeds, at most `patience` times. The result is the first success;
     * every attempt before it raised.
     */
    method FetchUser(query: string, getUser: (string, nat) -> Option<User>, patience: nat)
      returns (user: Option<User>, failures: nat)
      ensures failures <= patience
      ensures forall k :: 0 <= k < failures ==> getUser(query, k).None?
      ensures user.Some? ==> failures < patience && getUser(query, failures) == user
      ensures user.None? ==> failures == patience
    {
      var waiting := true;
      user := None;
      failures := 0;
      while waiting && failures < patience
        invariant failures <= patience
        invariant forall k :: 0 <= k < failures ==> getUser(query, k).None?
        invariant waiting <==> user.None?
        invariant user.Some? ==> failures < patience && getUser(query, failures) == user
        decreases patience - failures, waiting
      {
        var response := getUser(query, failures);
        if response.Some? {
          user := response;
          waiting := false;
        } else {
          failures := failures + 1;
          waiting := true;
        }
      }
    }

    /**
     * The `try` block for one follower, as written: filter, build the query,
     * execute it. `stopped` says that executing the sentinel raised the MySQL
     * error that ends the run.
     */
    method StoreFollower(follower: Profile, checked: seq<string>, peruvians: seq<string>, fault: EncodingFault)
      returns (stopped: bool)
      modifies db
      ensures stopped <==> Fatal(tableName, follower, checked, peruvians, fault)
      ensures db.rows == old(db.rows) + RowsFor(tableName, follower, checked, peruvians, fault)
    {
      FatalMeaning(tableName, follower, checked, peruvians, fault);
      RowsForMeaning(tableName, follower, checked, peruvians, fault);
      stopped := false;
      var isPeruvian := CheckPeru(follower);
      if isPeruvian == Ok(true) && follower.screenName.Some?
         && follower.screenName.value !in checked && follower.screenName.value !in peruvians {
        var sql := MakeQuery(tableName, follower, fault == InMakeQuery);
        if sql.Ok? && sql.value == EncodingErrorSentinel {
          stopped := true;
          assert db.rows == old(db.rows) + [];
          return;
        }
        if sql.Ok? && fault != InExecute {
          db.Insert(RowOf(follower));
          return;
        }
      }
      assert RowsFor(tableName, follower, checked, peruvians, fault) == [];
      assert db.rows == old(db.rows) + [];
    }

    /**
     * The follower loop of lines 139-151: followers are stored one by one
     * until a fatal one stops the run; `stopped` says whether that happened.
     */
    method ProcessFollowers(followers: seq<Profile>, checked: seq<string>, peruvians: seq<string>,
                            fault: Profile -> EncodingFault)
      returns (stopped: bool)
      modifies db
      ensures stopped <==> Handled(tableName, followers, checked, peruvians, fault) < |followers|
      ensures db.rows == old(db.rows)
        + Admitted(tableName, followers[..Handled(tableName, followers, checked, peruvians, fault)], checked, peruvians, fault)
    {
      ghost var n := Handled(tableName, followers, checked, peruvians, fault);
      for k := 0 to |followers|
        invariant k <= n
        invariant db.rows == old(db.rows) + Admitted(tableName, followers[..k], checked, peruvians, fault)
      {
        HandledStep(tableName, followers, checked, peruvians, fault, k);
        var stop := StoreFollower(followers[k], checked, peruvians, fault(followers[k]));
        if stop {
          FatalMeaning(tableName, followers[k], checked, peruvians, fault(followers[k]));
          assert db.rows == old(db.rows) + Admitted(tableName, followers[..k], checked, peruvians, fault);
          return true;
        }
        AdmittedSnoc(tableName, followers, k, checked, peruvians, fault);
      }
      assert followers[..|followers|] == followers;
      return false;
    }

    /**
     * One iteration of `while True` up to the follower loop: fetch the seed,
     * flag it, store its qualifying followers until a fatal one stops the run.
     */
    method Visit(query: string, checked: seq<string>, peruvians: seq<string>, env: Env, patience: nat)
      returns (user: Option<User>, stopped: bool)
      modifies db
      ensures user.None? ==> !stopped && db.rows == old(db.rows)
                             && forall k :: 0 <= k < patience ==> env.getUser(query, k).None?
      ensures user.Some? ==> exists k :: 0 <= k < patience && env.getUser(query, k) == user
      ensures user.Some? ==>
        var followers := env.followersOf(user.value);
        var n := Handled(tableName, followers, checked, peruvians, env.fault);
        && (stopped <==> n < |followers|)
        && db.rows == SetChecked(old(db.rows), user.value.screenName)
                      + Admitted(tableName, followers[..n], checked, peruvians, env.fault)
    {
      var failures;
      user, failures := FetchUser(query, env.getUser, patience);
      if user.None? {
        return user, false;
      }
      db.MarkChecked(user.value.screenName);
      stopped := ProcessFollowers(env.followersOf(user.value), checked, peruvians, env.fault);
    }

    /**
     * Visit, seen from the crawl loop: the table only grows and raises flags,
     * and keeps 0/1 flags; the run stops only for a follower of the fetched
     * user whose query hit an encoding failure.
     */
    method Round(query: string, checked: seq<string>, peruvians: seq<string>, env: Env, patience: nat)
      returns (user: Option<User>, stopped: bool)
      modifies db
      ensures user.None? ==> !stopped && db.rows == old(db.rows)
                             && forall k :: 0 <= k < patience ==> env.getUser(query, k).None?
      ensures stopped ==> exists k :: 0 <= k < patience && env.getUser(query, k).Some?
                            && Faulty(env, env.getUser(query, k).value)
      ensures Evolves(old(db.rows), db.rows)
      ensures FlagsBinary(old(db.rows)) ==> FlagsBinary(db.rows)
    {
      user, stopped := Visit(query, checked, peruvians, env, patience);
      if user.Some? {
        var followers := env.followersOf(user.value);
        var n := Handled(tableName, followers, checked, peruvians, env.fault);
        var added := Admitted(tableName, followers[..n], checked, peruvians, env.fault);
        VisitEvolves(old(db.rows), user.value.screenName, added);
        if FlagsBinary(old(db.rows)) {
          VisitKeepsFlagsBinary(old(db.rows), user.value.screenName, tableName, followers[..n],
            checked, peruvians, env.fault);
        }
        if stopped {
          FatalMeaning(tableName, followers[n], checked, peruvians, env.fault(followers[n]));
          assert followers[n] in followers;
        }
      }
    }

    /**
     * `run`: picks the first seed (`start`, or the screen name in the first
     * search result's link), reads both lists, then repeats Visit, reloads the
     * lists and pops the head of the unchecked one as the next seed, until that
     * list is empty, or until storing a follower raises an error nothing
     * catches. `rounds` bounds the iterations and `patience` the attempts per
     * GetUser.
     */
    method Run(start: string, mode: string, firstLink: string, env: Env, rounds: nat, patience: nat)
      returns (end: RunEnd)
      modifies db
      ensures Evolves(old(db.rows), db.rows)
      ensures FlagsBinary(old(db.rows)) ==> FlagsBinary(db.rows)
      ensures end.FrontierEmpty? ==> forall i :: 0 <= i < |db.rows| ==> db.rows[i].checked != 0
      ensures end.RoundsExhausted? && rounds > 0 ==>
        NamesWithFlag(db.rows, 0) != [] && end.next == NamesWithFlag(db.rows, 0)[0]
      ensures end.StillRetrying? ==> forall k :: 0 <= k < patience ==> env.getUser(end.query, k).None?
      ensures end.Aborted? ==> exists k :: 0 <= k < patience && env.getUser(end.seed, k).Some?
                                 && Faulty(env, env.getUser(end.seed, k).value)
    {
      var query: string;
      if mode == "UserInput" {
        query := start;
      } else {
        query := ExtractScreenName(firstLink);
      }
      var checked := db.SelectScreenNames(1);
      var peruvians := db.SelectScreenNames(0);
      var round := 0;
      while round < rounds
        invariant round <= rounds
        invariant Evolves(old(db.rows), db.rows)
        invariant FlagsBinary(old(db.rows)) ==> FlagsBinary(db.rows)
        invariant checked == NamesWithFlag(db.rows, 1)
        invariant round == 0 ==> peruvians == NamesWithFlag(db.rows, 0)
        invariant round > 0 ==> [query] + peruvians == NamesWithFlag(db.rows, 0)
        decreases rounds - round
      {
        ghost var before := db.rows;
        var user, stopped := Round(query, checked, peruvians, env, patience);
        if user.None? {
          return StillRetrying(query);
        }
        EvolvesTransitive(old(db.rows), before, db.rows);
        if stopped {
          return Aborted(query);
        }
        checked := db.SelectScreenNames(1);
        peruvians := db.SelectScreenNames(0);
        if peruvians == [] {
          FirstUnchecked(db.rows);
          return FrontierEmpty;
        }
        assert [peruvians[0]] + peruvians[1..] == peruvians;
        query := peruvians[0];
        peruvians := peruvians[1..];
        round := round + 1;
      }
      return RoundsExhausted(query);
    }
  }
}
