/**
 * The INSERT statement serialiser of `SQL_Helper.make_insert_query`.
 *
 * Each value is rendered either as a canonical decimal integer (when Python's
 * `int()` accepts it) or wrapped verbatim in single quotes, and the rendered
 * values are joined with ", " inside a fixed INSERT template.
 */
module SqlHelper {
  import opened Wrappers

  /** A value handed to `make_insert_query`: a Python int or a Python string. */
  datatype Value = Int(i: int) | Text(s: string)

  // ---------------------------------------------------------------------------
  // What Python 2's int() accepts on a string: surrounding whitespace, an
  // optional sign, more whitespace, at least one decimal digit.
  // ---------------------------------------------------------------------------

  predicate IsDigit(c: char) { '0' <= c <= '9' }

  predicate IsSpace(c: char)
  {
    c == ' ' || c == '\t' || c == '\n' || c == '\r' || c == '\U{B}' || c == '\U{C}'
  }

  predicate AllDigits(s: string)
  {
    forall i :: 0 <= i < |s| ==> IsDigit(s[i])
  }

  /** `s` without its leading whitespace. */
  function TrimLeft(s: string): (r: string)
    ensures |r| <= |s| && r == s[|s| - |r|..]
    ensures r == [] || !IsSpace(r[0])
    ensures forall i :: 0 <= i < |s| - |r| ==> IsSpace(s[i])
  {
    if s != [] && IsSpace(s[0]) then TrimLeft(s[1..]) else s
  }

  /** `s` without its trailing whitespace. */
  function TrimRight(s: string): (r: string)
    ensures |r| <= |s| && r == s[..|r|]
    ensures r == [] || !IsSpace(r[|r| - 1])
    ensures forall i :: |r| <= i < |s| ==> IsSpace(s[i])
  {
    if s != [] && IsSpace(s[|s| - 1]) then TrimRight(s[..|s| - 1]) else s
  }

  /** Python's `str.strip()` restricted to ASCII whitespace. */
  function Trim(s: string): string
  {
    TrimRight(TrimLeft(s))
  }

  /** Text with no whitespace at either end is left as it is. */
  lemma TrimUnchanged(s: string)
    requires s != [] && !IsSpace(s[0]) && !IsSpace(s[|s| - 1])
    ensures Trim(s) == s
  {
    assert TrimLeft(s) == s;
  }

  /**
   * One or more digits, or a sign followed by one or more digits; between
   * the sign and the digits whitespace may stand (`int('- 5') == -5`).
   */
  predicate IsIntLiteral(t: string)
  {
    if |t| > 0 && (t[0] == '+' || t[0] == '-') then |TrimLeft(t[1..])| > 0 && AllDigits(TrimLeft(t[1..]))
    else |t| > 0 && AllDigits(t)
  }

  /** `int(s)` succeeds (does not raise ValueError). */
  predicate ParsesAsInt(s: string)
  {
    IsIntLiteral(Trim(s))
  }

  function DigitsValue(d: string): nat
    requires AllDigits(d)
  {
    if d == [] then 0 else DigitsValue(d[..|d| - 1]) * 10 + (d[|d| - 1] as int - '0' as int)
  }

  function LiteralValue(t: string): int
    requires IsIntLiteral(t)
  {
    if t[0] == '-' then -(DigitsValue(TrimLeft(t[1..])) as int)
    else if t[0] == '+' then DigitsValue(TrimLeft(t[1..]))
    else DigitsValue(t)
  }

  /** The number `int(s)` returns. */
  function ParseInt(s: string): int
    requires ParsesAsInt(s)
  {
    LiteralValue(Trim(s))
  }

  // ---------------------------------------------------------------------------
  // str(n): the canonical decimal spelling of an integer.
  // ---------------------------------------------------------------------------

  function DigitChar(d: nat): (c: char)
    requires d < 10
    ensures IsDigit(c) && c as int - '0' as int == d
  {
    ('0' as int + d) as char
  }

  /** Decimal digits of `n`, with no leading zero unless `n` is 0. */
  function NatToString(n: nat): (r: string)
    ensures |r| > 0 && AllDigits(r)
    ensures r[0] == '0' ==> n == 0
    decreases n
  {
    if n < 10 then [DigitChar(n)] else NatToString(n / 10) + [DigitChar(n % 10)]
  }

  /** Python's `str(n)` for an int. */
  function IntToString(i: int): string
  {
    if i < 0 then "-" + NatToString(-i) else NatToString(i)
  }

  lemma {:induction false} NatToStringValue(n: nat)
    ensures DigitsValue(NatToString(n)) == n
    decreases n
  {
    if n >= 10 {
      NatToStringValue(n / 10);
      var s := NatToString(n);
      assert s[..|s| - 1] == NatToString(n / 10);
    }
  }

  /** Digits alone form a literal denoting their value. */
  lemma DigitsLiteral(d: string)
    requires |d| > 0 && AllDigits(d)
    ensures IsIntLiteral(d) && LiteralValue(d) == DigitsValue(d)
  {
    assert IsDigit(d[0]);
  }

  /** A sign, then digits `d` once the whitespace after the sign is skipped, is a literal denoting the signed value of `d`. */
  lemma SignedLiteral(t: string, d: string)
    requires |t| > 0 && (t[0] == '+' || t[0] == '-')
    requires TrimLeft(t[1..]) == d && |d| > 0 && AllDigits(d)
    ensures IsIntLiteral(t)
    ensures LiteralValue(t) == if t[0] == '-' then -(DigitsValue(d) as int) else DigitsValue(d)
  {
  }

  /** The spelling `str` produces is an integer literal denoting the same number. */
  lemma IntToStringLiteral(i: int)
    ensures IsIntLiteral(IntToString(i)) && LiteralValue(IntToString(i)) == i
  {
    var n: nat := if i < 0 then -i else i;
    NatToStringValue(n);
    var d := NatToString(n);
    if i < 0 {
      var t := IntToString(i);
      assert t[1..] == d;
      assert !IsSpace(d[0]);
      SignedLiteral(t, d);
    } else {
      DigitsLiteral(d);
    }
  }

  /** The spelling `str` produces is accepted by `int()` and denotes the same number. */
  lemma IntToStringParses(i: int)
    ensures ParsesAsInt(IntToString(i)) && ParseInt(IntToString(i)) == i
    ensures IsIntLiteral(IntToString(i)) && LiteralValue(IntToString(i)) == i
  {
    var s := IntToString(i);
    IntToStringLiteral(i);
    assert !IsSpace(s[0]) && !IsSpace(s[|s| - 1]);
    TrimUnchanged(s);
  }

  // ---------------------------------------------------------------------------
  // Rendering and the INSERT template.
  // ---------------------------------------------------------------------------

  /** One value as `make_insert_query` writes it: `str(int(s))` or `'` + s + `'`. */
  function Render(v: Value): string
  {
    match v
    case Int(i) => IntToString(i)
    case Text(s) => if ParsesAsInt(s) then IntToString(ParseInt(s)) else "'" + s + "'"
  }

  function RenderAll(values: seq<Value>): seq<string>
  {
    seq(|values|, k requires 0 <= k < |values| => Render(values[k]))
  }

  /** Rendering one more value extends the rendered list by that value's rendering. */
  lemma RenderAllStep(values: seq<Value>, k: nat)
    requires k < |values|
    ensures RenderAll(values[..k + 1]) == RenderAll(values[..k]) + [Render(values[k])]
  {
    var longer := RenderAll(values[..k + 1]);
    var extended := RenderAll(values[..k]) + [Render(values[k])];
    forall j | 0 <= j < k + 1 ensures longer[j] == extended[j] {
      assert values[..k + 1][j] == values[j];
      if j < k {
        assert values[..k][j] == values[j];
      }
    }
  }

  /** Python's `', '.join(xs)`. */
  function JoinComma(xs: seq<string>): string
  {
    if xs == [] then "" else if |xs| == 1 then xs[0] else xs[0] + ", " + JoinComma(xs[1..])
  }

  /** The columns every statement fills, in the order of a row's fields. */
  const Columns: string := "(screen_name, name, location, checked, follower_count) VALUES"

  /** The fixed part of the statement; the table name goes in unquoted. */
  function Header(table: string): string
  {
    "INSERT INTO " + table + Columns
  }

  /** The statement `make_insert_query(table, values)` returns. */
  function InsertQuery(table: string, values: seq<Value>): string
  {
    Header(table) + "(" + JoinComma(RenderAll(values)) + ")"
  }

  /** `SQL_Helper.make_insert_query`: builds the list of rendered values in a loop, then joins it. */
  method MakeInsertQuery(table: string, values: seq<Value>) returns (query: string)
    ensures query == InsertQuery(table, values)
  {
    query := Header(table);
    var vals: seq<string> := [];
    for k := 0 to |values|
      invariant vals == RenderAll(values[..k])
    {
      // the `try` block: `str(int(s))`, or on ValueError `s` in single quotes
      var r: string;
      match values[k] {
        case Int(n) =>
          r := IntToString(n);
        case Text(s) =>
          if ParsesAsInt(s) {
            var numero := ParseInt(s);
            r := IntToString(numero);
          } else {
            r := "'" + s + "'";
          }
      }
      RenderAllStep(values, k);
      vals := vals + [r];
    }
    assert values[..|values|] == values;
    query := query + "(" + JoinComma(vals) + ")";
  }

  // ---------------------------------------------------------------------------
  // Reading a rendered value list back: the partner of Render and JoinComma.
  // ---------------------------------------------------------------------------

  /** What a rendered value denotes: a text `int()` accepts becomes that int. */
  function Normalize(v: Value): Value
  {
    match v
    case Int(_) => v
    case Text(s) => if ParsesAsInt(s) then Int(ParseInt(s)) else v
  }

  function NormalizeAll(values: seq<Value>): (r: seq<Value>)
    ensures |r| == |values|
  {
    if values == [] then [] else [Normalize(values[0])] + NormalizeAll(values[1..])
  }

  /** Values that already are their own meaning read back unchanged. */
  lemma {:induction false} NormalizeAllFixed(values: seq<Value>)
    requires forall k :: 0 <= k < |values| ==> Normalize(values[k]) == values[k]
    ensures NormalizeAll(values) == values
  {
    if values != [] {
      NormalizeAllFixed(values[1..]);
    }
  }

  /** The value carries no single quote, so its quoted rendering is unambiguous. */
  predicate QuoteFree(v: Value)
  {
    v.Text? ==> '\'' !in v.s
  }

  function IndexOf(s: string, c: char): (k: nat)
    ensures k <= |s|
    ensures k < |s| ==> s[k] == c
    ensures forall j :: 0 <= j < k ==> s[j] != c
  {
    if s == [] then 0 else if s[0] == c then 0 else 1 + IndexOf(s[1..], c)
  }

  /** One SQL literal at the front of `s`, and how many characters it takes up. */
  function ReadLiteral(s: string): (r: Option<(Value, nat)>)
    ensures r.Some? ==> 0 < r.value.1 <= |s|
  {
    if |s| > 0 && s[0] == '\'' then
      var k := IndexOf(s[1..], '\'');
      if k == |s| - 1 then None else Some((Text(s[1..k + 1]), k + 2))
    else
      var k := IndexOf(s, ',');
      if IsIntLiteral(s[..k]) then Some((Int(LiteralValue(s[..k])), k)) else None
  }

  /** A non-empty list of literals separated by ", ". */
  function ReadList(s: string): Option<seq<Value>>
    decreases |s|
  {
    match ReadLiteral(s)
    case None => None
    case Some((v, k)) =>
      if k == |s| then Some([v])
      else if k + 2 <= |s| && s[k..k + 2] == ", " then
        match ReadList(s[k + 2..])
        case None => None
        case Some(vs) => Some([v] + vs)
      else None
  }

  /** The values between the parentheses of a VALUES clause. */
  function ReadValues(s: string): Option<seq<Value>>
  {
    if s == [] then Some([]) else ReadList(s)
  }

  lemma IntToStringShape(i: int)
    ensures |IntToString(i)| > 0
    ensures forall j :: 0 <= j < |IntToString(i)| ==> IntToString(i)[j] == '-' || IsDigit(IntToString(i)[j])
  {
  }

  /** A rendered integer followed by a separator (or nothing) reads back as that integer. */
  lemma ReadIntRendered(n: int, rest: string)
    requires rest == [] || rest[0] == ','
    ensures ReadLiteral(IntToString(n) + rest) == Some((Int(n), |IntToString(n)|))
  {
    var r := IntToString(n);
    var s := r + rest;
    IntToStringShape(n);
    assert r[0] != '\'';
    assert forall j :: 0 <= j < |r| ==> r[j] != ',';
    assert s[..|r|] == r;
    var k := IndexOf(s, ',');
    assert k == |r| by {
      assert forall j :: 0 <= j < |r| ==> s[j] == r[j];
      assert |s| > |r| ==> s[|r|] == ',';
    }
    IntToStringLiteral(n);
  }

  /** A quoted quote-free text followed by a separator (or nothing) reads back as that text. */
  lemma ReadQuotedRendered(x: string, rest: string)
    requires '\'' !in x
    ensures ReadLiteral("'" + x + "'" + rest) == Some((Text(x), |x| + 2))
  {
    var s := "'" + x + "'" + rest;
    var t := s[1..];
    assert t == x + "'" + rest;
    assert forall j :: 0 <= j < |x| ==> t[j] == x[j] && t[j] != '\'';
    assert t[|x|] == '\'';
    var k := IndexOf(t, '\'');
    assert k == |x|;
    assert s[1..k + 1] == x;
  }

  /** A rendered quote-free value followed by a separator (or nothing) reads back as its meaning. */
  lemma ReadLiteralRendered(v: Value, rest: string)
    requires QuoteFree(v)
    requires rest == [] || rest[0] == ','
    ensures ReadLiteral(Render(v) + rest) == Some((Normalize(v), |Render(v)|))
  {
    match v
    case Int(n) =>
      assert Render(v) == IntToString(n);
      ReadIntRendered(n, rest);
    case Text(x) =>
      if ParsesAsInt(x) {
        assert Render(v) == IntToString(ParseInt(x)) && Normalize(v) == Int(ParseInt(x));
        ReadIntRendered(ParseInt(x), rest);
      } else {
        assert Render(v) == "'" + x + "'" && Normalize(v) == v;
        ReadQuotedRendered(x, rest);
      }
  }

  /** A single rendered quote-free value reads back as a one-element list. */
  lemma ReadRenderedSingle(v: Value)
    requires QuoteFree(v)
    ensures ReadList(Render(v)) == Some([Normalize(v)])
  {
    var r := Render(v);
    ReadLiteralRendered(v, []);
    assert r + [] == r;
  }

  /** Where the separator and the rest of a joined list sit. */
  lemma Separated(r: string, tail: string)
    ensures var s := r + (", " + tail);
      && |s| == |r| + 2 + |tail| && s[|r|..|r| + 2] == ", " && s[|r| + 2..] == tail
  {
  }

  /** A literal, a ", " separator and a readable list read back as one longer list. */
  lemma ReadListStep(r: string, tail: string, v: Value, vs: seq<Value>)
    requires ReadLiteral(r + (", " + tail)) == Some((v, |r|))
    requires ReadList(tail) == Some(vs)
    ensures ReadList(r + (", " + tail)) == Some([v] + vs)
  {
    var s := r + (", " + tail);
    Separated(r, tail);
    assert |r| != |s| && |r| + 2 <= |s| && s[|r|..|r| + 2] == ", ";
    assert ReadList(s[|r| + 2..]) == Some(vs);
  }

  /** RenderAll and JoinComma lose nothing on quote-free values: reading the list back gives each value's meaning, in order. */
  lemma {:induction false} ReadRendered(values: seq<Value>)
    requires values != []
    requires forall k :: 0 <= k < |values| ==> QuoteFree(values[k])
    ensures ReadList(JoinComma(RenderAll(values))) == Some(NormalizeAll(values))
    decreases |values|
  {
    var rs := RenderAll(values);
    var r := Render(values[0]);
    assert NormalizeAll(values) == [Normalize(values[0])] + NormalizeAll(values[1..]);
    if |values| == 1 {
      assert rs == [r];
      assert JoinComma(rs) == r;
      assert NormalizeAll(values[1..]) == [];
      assert NormalizeAll(values) == [Normalize(values[0])];
      ReadRenderedSingle(values[0]);
    } else {
      assert rs[1..] == RenderAll(values[1..]);
      var tail := JoinComma(rs[1..]);
      assert JoinComma(rs) == r + (", " + tail);
      ReadLiteralRendered(values[0], ", " + tail);
      ReadRendered(values[1..]);
      ReadListStep(r, tail, Normalize(values[0]), NormalizeAll(values[1..]));
    }
  }

  /** The value list of an INSERT statement for `table`, read back; None when `q` is not shaped like one. */
  function ParseInsert(table: string, q: string): Option<seq<Value>>
  {
    var h := |Header(table)|;
    if |q| >= h + 2 && q[..h] == Header(table) && q[h] == '(' && q[|q| - 1] == ')' then
      ReadValues(q[h + 1..|q| - 1])
    else None
  }

  /** A header, then a body in parentheses: each part can be cut back out. */
  lemma Enclosed(h: string, body: string)
    ensures var q := h + "(" + body + ")";
      && |q| == |h| + |body| + 2 && q[..|h|] == h && q[|h|] == '(' && q[|q| - 1] == ')'
      && q[|h| + 1..|q| - 1] == body
  {
  }

  /**
   * The statement begins with the fixed template naming the table unquoted,
   * ends in parentheses, and between them the value list reads back as the
   * values' meaning, in input order and count, whenever no text value holds
   * a quote.
   */
  lemma InsertQueryRoundTrip(table: string, values: seq<Value>)
    requires forall k :: 0 <= k < |values| ==> QuoteFree(values[k])
    ensures ParseInsert(table, InsertQuery(table, values)) == Some(NormalizeAll(values))
  {
    var body := JoinComma(RenderAll(values));
    Enclosed(Header(table), body);
    assert ParseInsert(table, InsertQuery(table, values)) == ReadValues(body);
    if values == [] {
      assert body == "";
    } else {
      ReadRendered(values);
    }
  }

  /** The first three parts of `a + b + c + "(" + e + ")"` can be cut back out. */
  lemma Prefixed(a: string, b: string, c: string, e: string)
    ensures var q := a + b + c + "(" + e + ")";
      && |q| > |a| + |b| + |c|
      && q[..|a|] == a && q[|a|..|a| + |b|] == b && q[|a| + |b|..|a| + |b| + |c|] == c
  {
  }

  /** The statement opens with "INSERT INTO " and the table name, verbatim and unquoted, then the column list. */
  lemma InsertQueryHeader(table: string, values: seq<Value>)
    ensures |InsertQuery(table, values)| > 12 + |table|
    ensures InsertQuery(table, values)[..12] == "INSERT INTO "
    ensures InsertQuery(table, values)[12..12 + |table|] == table
    ensures InsertQuery(table, values)[12 + |table|..|Header(table)|] == Columns
  {
    Prefixed("INSERT INTO ", table, Columns, JoinComma(RenderAll(values)));
  }

  lemma SevenUntrimmed()
    ensures Trim("007") == "007"
  {
    var s := "007";
    assert s[0] == '0' && s[2] == '7';
    TrimUnchanged(s);
  }

  lemma SevenDigits()
    ensures AllDigits("007") && DigitsValue("007") == 7
  {
    var s := "007";
    var z := s[..2];
    assert z == "00";
    assert z[..1] == "0";
    assert DigitsValue(z[..1]) == 0;
    assert DigitsValue(z) == 0;
  }

  /** `int("007")` is 7. */
  lemma ZeroPaddedSeven()
    ensures ParsesAsInt("007") && ParseInt("007") == 7
  {
    SevenUntrimmed();
    SevenDigits();
  }

  /** A text `int()` accepts loses its spelling: "007" is written as 7, the int 0 as 0. */
  lemma LeadingZerosDropped()
    ensures Render(Text("007")) == "7"
    ensures Render(Int(0)) == "0"
  {
    ZeroPaddedSeven();
    assert Render(Text("007")) == IntToString(7);
    assert NatToString(7) == "7";
  }

  /** An integer literal is made of a sign, whitespace and digits only. */
  lemma IntLiteralChars(t: string)
    requires IsIntLiteral(t)
    ensures forall j :: 0 <= j < |t| ==> t[j] == '+' || t[j] == '-' || IsSpace(t[j]) || IsDigit(t[j])
  {
    if t[0] == '+' || t[0] == '-' {
      var u := t[1..];
      var d := TrimLeft(u);
      forall j | 1 <= j < |t| ensures IsSpace(t[j]) || IsDigit(t[j]) {
        assert t[j] == u[j - 1];
        if j - 1 >= |u| - |d| {
          assert d[j - 1 - (|u| - |d|)] == u[j - 1];
        }
      }
    }
  }

  /** A text `int()` accepts holds no single quote: only whitespace, a sign and digits. */
  lemma IntLiteralHasNoQuote(x: string)
    requires ParsesAsInt(x)
    ensures '\'' !in x
  {
    var l := TrimLeft(x);
    var t := TrimRight(l);
    IntLiteralChars(t);
    forall i | 0 <= i < |x| ensures x[i] != '\'' {
      if i >= |x| - |l| {
        var j := i - (|x| - |l|);
        assert l[j] == x[i];
        if j < |t| {
          assert t[j] == l[j];
        }
      }
    }
  }

  /**
   * Python 2's `int()` lets whitespace stand between the sign and the
   * digits (`int('- 5') == -5`), so such a text is written as the number.
   */
  lemma SpaceAfterSign(d: string)
    requires |d| > 0 && AllDigits(d)
    ensures ParsesAsInt("- " + d) && ParseInt("- " + d) == -(DigitsValue(d) as int)
    ensures Render(Text("- " + d)) == IntToString(ParseInt("- " + d))
  {
    SignSpaceParses(d);
    RenderParsed("- " + d);
  }

  lemma SignSpaceParses(d: string)
    requires |d| > 0 && AllDigits(d)
    ensures ParsesAsInt("- " + d) && ParseInt("- " + d) == -(DigitsValue(d) as int)
  {
    SignSpaceLiteral(d);
    SignSpaceKept(d);
    ParseTrimmed("- " + d);
  }

  lemma SignSpaceLiteral(d: string)
    requires |d| > 0 && AllDigits(d)
    ensures IsIntLiteral("- " + d) && LiteralValue("- " + d) == -(DigitsValue(d) as int)
  {
    var t := "- " + d;
    assert TrimLeft(t[1..]) == d by { SignSpaceSkipped(d); }
    assert t[0] == '-';
  }

  /** A literal with no whitespace around it is what `int()` reads. */
  lemma ParseTrimmed(s: string)
    requires Trim(s) == s && IsIntLiteral(s)
    ensures ParsesAsInt(s) && ParseInt(s) == LiteralValue(s)
  {
  }

  lemma SignSpaceSkipped(d: string)
    requires |d| > 0 && AllDigits(d)
    ensures TrimLeft(("- " + d)[1..]) == d
  {
    var u := ("- " + d)[1..];
    assert u == " " + d && u[1..] == d;
    assert IsSpace(u[0]) && IsDigit(d[0]);
  }

  lemma SignSpaceKept(d: string)
    requires |d| > 0 && AllDigits(d)
    ensures Trim("- " + d) == "- " + d
  {
    var t := "- " + d;
    assert t[|t| - 1] == d[|d| - 1];
    TrimUnchanged(t);
  }

  lemma RenderParsed(s: string)
    requires ParsesAsInt(s)
    ensures Render(Text(s)) == IntToString(ParseInt(s))
  {
  }

  /** Reading a quoted text that holds a quote stops at that quote, short of the whole text. */
  lemma ReadStopsAtQuote(x: string)
    requires '\'' in x
    ensures ReadList("'" + x + "'") != Some([Text(x)])
  {
    var r := "'" + x + "'";
    var q :| 0 <= q < |x| && x[q] == '\'';
    assert r[1..] == x + "'";
    assert (x + "'")[q] == '\'';
    var k := IndexOf(r[1..], '\'');
    assert k <= q;
    assert ReadLiteral(r) == Some((Text(r[1..k + 1]), k + 2));
    assert |r[1..k + 1]| < |x|;
  }

  /**
   * Embedded single quotes are not escaped: a text holding one, a name like
   * O'Brien, is quoted verbatim and no longer reads back as itself.
   */
  lemma QuoteNotEscaped(x: string)
    requires '\'' in x
    ensures Render(Text(x)) == "'" + x + "'"
    ensures ReadValues(JoinComma(RenderAll([Text(x)]))) != Some([Text(x)])
  {
    if ParsesAsInt(x) {
      IntLiteralHasNoQuote(x);
    }
    var r := "'" + x + "'";
    assert RenderAll([Text(x)]) == [r];
    assert JoinComma([r]) == r;
    ReadStopsAtQuote(x);
  }
}
