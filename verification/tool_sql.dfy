/** The text a tool listing exchanges with PostgreSQL: the `search_terms`
    array literal written by `createTool`/`updateTool` and read back by the
    listing queries, the friend-id array literal and optional full-text
    clause of `listAllTools`, and the column lists of the insert and update
    statements (array literal syntax as in section 8.15.6 of the PostgreSQL
    manual). */
module ToolSql {
  import opened Wrappers
  import opened Text

  const Braces: set<char> := {'{', '}'}
  const Quotes: set<char> := {'"', '\''}

  /** `'"' . $v . '"'`. */
  function Quote(t: string): string
  {
    "\"" + t + "\""
  }

  function QuoteAll(ts: seq<string>): (r: seq<string>)
    ensures |r| == |ts|
    ensures forall i :: 0 <= i < |ts| ==> r[i] == Quote(ts[i])
  {
    seq(|ts|, i requires 0 <= i < |ts| => Quote(ts[i]))
  }

  /** The `search_terms` literal: `{}` for no terms, otherwise every term in
      double quotes, comma separated, in braces. */
  function EncodeSearchTerms(ts: seq<string>): (r: string)
    ensures r == "{}" <==> |ts| == 0
    ensures StartsWith(r, "{") && EndsWith(r, "}")
  {
    if |ts| == 0 then "{}"
    else
      var j := Join(",", QuoteAll(ts));
      JoinQuotedEnds(ts);
      "{" + j + "}"
  }

  lemma JoinQuotedEnds(ts: seq<string>)
    requires |ts| > 0
    ensures var j := Join(",", QuoteAll(ts)); |j| >= 2 && j[0] == '"' && j[|j| - 1] == '"'
  {
    var q := QuoteAll(ts);
    if |ts| > 1 {
      JoinQuotedEnds(ts[1..]);
      assert QuoteAll(ts[1..]) == q[1..];
    }
  }

  /** One piece of the column: `trim($item, '"\'')`. */
  function Unquote(piece: string): string
  {
    Trim(piece, Quotes)
  }

  /** `explode(',', trim($col, '{}'))` followed by unquoting each piece. */
  function DecodePieces(col: string): (r: seq<string>)
    ensures |r| >= 1
    ensures forall i :: 0 <= i < |r| ==> ',' !in r[i]
  {
    var pieces := Split(Trim(col, Braces), ',');
    seq(|pieces|, i requires 0 <= i < |pieces| => Unquote(pieces[i]))
  }

  /** A `search_terms` field after the listing loop: left alone when it is
      null or otherwise loosely equal to null, split into terms otherwise. */
  datatype SearchColumn = Unchanged(raw: Option<string>) | Exploded(terms: seq<string>)

  function DecodeColumn(col: Option<string>): (r: SearchColumn)
    ensures r.Unchanged? <==> col == None || col == Some("")
    ensures r.Unchanged? ==> r.raw == col
    ensures r.Exploded? ==> |r.terms| >= 1
  {
    if col == None || col.value == "" then Unchanged(col)
    else Exploded(DecodePieces(col.value))
  }

  /** A term survives the trip through the literal when it has no comma and
      neither starts nor ends with a quote character. */
  predicate Storable(t: string)
  {
    && ',' !in t
    && (|t| > 0 ==> t[0] !in Quotes && t[|t| - 1] !in Quotes)
  }

  /** Reading back a literal `createTool`/`updateTool` wrote returns the terms. */
  lemma {:induction false} SearchTermsRoundTrip(ts: seq<string>)
    requires |ts| > 0
    requires forall i :: 0 <= i < |ts| ==> Storable(ts[i])
    ensures DecodeColumn(Some(EncodeSearchTerms(ts))) == Exploded(ts)
  {
    var q := QuoteAll(ts);
    var j := Join(",", q);
    JoinQuotedEnds(ts);
    TrimEnclosed('{', j, '}', Braces);
    assert "{" + j + "}" == ['{'] + j + ['}'];
    forall i | 0 <= i < |q|
      ensures ',' !in q[i]
    {
      assert q[i] == ['"'] + ts[i] + ['"'];
    }
    SplitJoin(q, ',');
    assert [','] == ",";
    forall i | 0 <= i < |ts|
      ensures Unquote(q[i]) == ts[i]
    {
      assert q[i] == ['"'] + ts[i] + ['"'];
      TrimEnclosed('"', ts[i], '"', Quotes);
    }
    DecodeFromPieces("{" + j + "}", q, ts);
  }

  /** No terms are written as `{}`, which reads back as one empty term. */
  lemma EmptyTermsReadBackAsOneEmptyTerm()
    ensures EncodeSearchTerms([]) == "{}"
    ensures DecodeColumn(Some(EncodeSearchTerms([]))) == Exploded([""])
  {
    assert Trim("{}", Braces) == "" by {
      TrimEnclosed('{', "", '}', Braces);
      assert "{}" == ['{'] + "" + ['}'];
    }
    assert Split("", ',') == [""];
    assert Unquote("") == "" by {
      TrimUntrimmed("", Quotes);
    }
  }

  /** A term PostgreSQL prints without quotes. */
  predicate Bare(t: string)
  {
    |t| > 0 && forall i :: 0 <= i < |t| ==> t[i] !in {',', '"', '\'', '{', '}'}
  }

  /** PostgreSQL prints an array of bare terms as `{a,b}`; that form reads
      back as the same terms too. */
  lemma {:induction false} BareListRoundTrip(ts: seq<string>)
    requires |ts| > 0
    requires forall i :: 0 <= i < |ts| ==> Bare(ts[i])
    ensures DecodeColumn(Some("{" + Join(",", ts) + "}")) == Exploded(ts)
  {
    var j := Join(",", ts);
    BareJoinEnds(ts);
    TrimEnclosed('{', j, '}', Braces);
    assert "{" + j + "}" == ['{'] + j + ['}'];
    SplitJoin(ts, ',');
    assert [','] == ",";
    forall i | 0 <= i < |ts|
      ensures Unquote(ts[i]) == ts[i]
    {
      TrimUntrimmed(ts[i], Quotes);
    }
    DecodeFromPieces("{" + j + "}", ts, ts);
  }

  /** Decoding a column whose pieces unquote to `ts` gives `ts`. */
  lemma DecodeFromPieces(col: string, pieces: seq<string>, ts: seq<string>)
    requires Split(Trim(col, Braces), ',') == pieces
    requires |pieces| == |ts| && forall i :: 0 <= i < |ts| ==> Unquote(pieces[i]) == ts[i]
    ensures DecodePieces(col) == ts
  {
  }

  lemma BareJoinEnds(ts: seq<string>)
    requires |ts| > 0
    requires forall i :: 0 <= i < |ts| ==> Bare(ts[i])
    ensures var j := Join(",", ts); |j| > 0 && j[0] !in Braces && j[|j| - 1] !in Braces
    ensures forall i :: 0 <= i < |ts| ==> ',' !in ts[i]
  {
    if |ts| > 1 {
      BareJoinEnds(ts[1..]);
      assert Join(",", ts) == ts[0] + "," + Join(",", ts[1..]);
    }
  }

  /** `$connector`: `&` when every term must match, `|` otherwise. */
  function Connector(withAnd: bool): char
  {
    if withAnd then '&' else '|'
  }

  /** `$searchVariable`: the terms joined by the connector. */
  function SearchVariable(ts: seq<string>, withAnd: bool): (r: string)
    ensures |ts| == 1 ==> r == ts[0]
  {
    Join([Connector(withAnd)], ts)
  }

  /** The query text sees exactly the terms: splitting the variable at the
      connector gives them back when no term holds the connector. */
  lemma SearchVariableTerms(ts: seq<string>, withAnd: bool)
    requires |ts| > 0
    requires forall i :: 0 <= i < |ts| ==> Connector(withAnd) !in ts[i]
    ensures Split(SearchVariable(ts, withAnd), Connector(withAnd)) == ts
  {
    SplitJoin(ts, Connector(withAnd));
  }

  const SearchString: string := "and t.search_vector @@ to_tsquery('english', :searchVariable)"

  /** `name` occurs in `sql` starting at position `i`. */
  predicate OccursAt(sql: string, name: string, i: int)
  {
    0 <= i <= |sql| - |name| && sql[i..i + |name|] == name
  }

  ghost predicate Mentions(sql: string, name: string)
  {
    exists i :: 0 <= i <= |sql| && OccursAt(sql, name, i)
  }

  /** A bound query parameter. The search radius (a float computed from
      miles) and the replacement cost (a float passed through) are bound as
      abstract values. */
  datatype Param = PInt(i: int) | PText(s: string) | PRadius | PFloat

  /** What `listAllTools` sends: nothing at all without friends, otherwise the
      friend-id literal, the clause appended to the query and the bound
      parameters. */
  datatype ToolsQuery = NoFriends | Query(friendIds: string, clause: string, params: map<string, Param>)

  /** `'{' . implode(',', $neighborIds) . '}'`. */
  function IdsLiteral(ids: seq<int>): string
  {
    "{" + Join(",", seq(|ids|, i requires 0 <= i < |ids| => IntToDecimal(ids[i]))) + "}"
  }

  function ListAllToolsQuery(me: int, friendIds: seq<int>, terms: seq<string>, withAnd: bool): (q: ToolsQuery)
    ensures q.NoFriends? <==> |friendIds| == 0
    ensures q.Query? ==> q.params.Keys == {":neighborId", ":friendIds", ":radius"} + (if |terms| > 0 then {":searchVariable"} else {})
    ensures q.Query? ==> q.params[":neighborId"] == PInt(me) && q.params[":friendIds"] == PText(q.friendIds)
    ensures q.Query? ==> q.friendIds == IdsLiteral(friendIds) && ParseIds(q.friendIds) == Some(friendIds)
    ensures q.Query? ==> (|terms| > 0 <==> Mentions(q.clause, ":searchVariable"))
    ensures q.Query? ==> (|terms| > 0 <==> ":searchVariable" in q.params)
    ensures q.Query? && |terms| > 0 ==> q.params[":searchVariable"] == PText(SearchVariable(terms, withAnd))
    ensures q.Query? && |terms| > 0 ==> q.clause == SearchString
    ensures q.Query? && |terms| == 0 ==> q.clause == ""
  {
    if |friendIds| == 0 then NoFriends
    else
      var lit := IdsLiteral(friendIds);
      IdsLiteralRoundTrip(friendIds);
      var base := BaseParams(me, lit);
      if |terms| > 0 then
        var v := SearchVariable(terms, withAnd);
        SearchStringMentions();
        BaseWithSearch(me, lit, v);
        Query(lit, SearchString, base[":searchVariable" := PText(v)])
      else
        Query(lit, "", base)
  }

  /** The parameters bound in every listing query. */
  function BaseParams(me: int, lit: string): (m: map<string, Param>)
    ensures m.Keys == {":neighborId", ":friendIds", ":radius"}
    ensures m[":neighborId"] == PInt(me) && m[":friendIds"] == PText(lit) && m[":radius"] == PRadius
  {
    map[":neighborId" := PInt(me), ":friendIds" := PText(lit), ":radius" := PRadius]
  }

  lemma BaseWithSearch(me: int, lit: string, v: string)
    ensures var m := BaseParams(me, lit)[":searchVariable" := PText(v)];
      && m.Keys == {":neighborId", ":friendIds", ":radius", ":searchVariable"}
      && m[":neighborId"] == PInt(me) && m[":friendIds"] == PText(lit)
      && ":searchVariable" in m && m[":searchVariable"] == PText(v)
  {
    assert ":searchVariable" != ":neighborId" && ":searchVariable" != ":friendIds";
  }

  lemma SearchStringMentions()
    ensures Mentions(SearchString, ":searchVariable")
  {
    assert OccursAt(SearchString, ":searchVariable", 45);
  }

  /** Reads an integer array literal the way the database does for the
      literals written here. */
  function ParseIds(lit: string): Option<seq<int>>
  {
    if |lit| < 2 || lit[0] != '{' || lit[|lit| - 1] != '}' then None
    else ParseAll(Split(lit[1..|lit| - 1], ','))
  }

  function ParseAll(pieces: seq<string>): (r: Option<seq<int>>)
    ensures r.Some? ==> |r.value| == |pieces|
  {
    if |pieces| == 0 then Some([])
    else
      var n :- ParseInt(pieces[0]);
      var rest :- ParseAll(pieces[1..]);
      Some([n] + rest)
  }

  lemma {:induction false} ParseAllDecimals(ids: seq<int>)
    ensures ParseAll(seq(|ids|, i requires 0 <= i < |ids| => IntToDecimal(ids[i]))) == Some(ids)
  {
    if |ids| > 0 {
      var ps := seq(|ids|, i requires 0 <= i < |ids| => IntToDecimal(ids[i]));
      assert ps[1..] == seq(|ids| - 1, i requires 0 <= i < |ids| - 1 => IntToDecimal(ids[1..][i]));
      ParseAllDecimals(ids[1..]);
      IntToDecimalRoundTrip(ids[0]);
      assert ids == [ids[0]] + ids[1..];
    }
  }

  lemma NoCommaInDecimal(n: int)
    ensures ',' !in IntToDecimal(n)
  {
    var d := if n < 0 then Decimal(-n) else Decimal(n);
    assert forall i :: 0 <= i < |d| ==> d[i] != ',';
    if n < 0 {
      assert IntToDecimal(n) == "-" + d;
    }
  }

  /** The friend-id literal carries exactly the friend ids. */
  lemma IdsLiteralRoundTrip(ids: seq<int>)
    requires |ids| > 0
    ensures ParseIds(IdsLiteral(ids)) == Some(ids)
  {
    var ps := seq(|ids|, i requires 0 <= i < |ids| => IntToDecimal(ids[i]));
    forall i | 0 <= i < |ps|
      ensures ',' !in ps[i]
    {
      NoCommaInDecimal(ids[i]);
    }
    SplitJoin(ps, ',');
    assert [','] == ",";
    var lit := IdsLiteral(ids);
    assert lit[1..|lit| - 1] == Join(",", ps);
    ParseAllDecimals(ids);
  }

  /** PHP truthiness of the upload's file name: null, `""` and `"0"` are false. */
  predicate Truthy(name: Option<string>)
  {
    name.Some? && name.value != "" && name.value != "0"
  }

  /** The fields of the tool form. The replacement cost is a float passed
      through unchanged, so it is only a parameter here. */
  datatype ToolForm = ToolForm(
    neighborId: string, shortName: string, brand: string, name: string, productUrl: string,
    categoryId: int, searchTerms: seq<string>)

  /** The keys of `$data`: the tool columns, and the two ids that only the
      `where` clause of the update uses. */
  datatype Key =
    | OwnerId | Name | ProductUrl | ReplacementCost | Category | ShortName | Brand | SearchTerms | PhotoLink
    | ToolId | NeighborId

  predicate IsColumn(k: Key)
  {
    !(k.ToolId? || k.NeighborId?)
  }

  function KeyName(k: Key): string
  {
    match k
    case OwnerId => "owner_id"
    case Name => "name"
    case ProductUrl => "product_url"
    case ReplacementCost => "replacement_cost"
    case Category => "category"
    case ShortName => "short_name"
    case Brand => "brand"
    case SearchTerms => "search_terms"
    case PhotoLink => "photo_link"
    case ToolId => "toolId"
    case NeighborId => "neighborId"
  }

  /** The keys of `$data` in insertion order, and the value bound to each.
      `createTool` puts `owner_id` first; `updateTool` does not. */
  function ToolData(f: ToolForm, filename: Option<string>, withOwner: bool): (d: seq<(Key, Param)>)
  {
    (if withOwner then [(OwnerId, PText(f.neighborId))] else [])
    + [(Name, PText(f.name)), (ProductUrl, PText(f.productUrl)), (ReplacementCost, PFloat),
       (Category, PInt(f.categoryId)), (ShortName, PText(f.shortName)), (Brand, PText(f.brand)),
       (SearchTerms, PText(EncodeSearchTerms(f.searchTerms)))]
    + (if Truthy(filename) then [(PhotoLink, PText(filename.value))] else [])
  }

  function Keys(d: seq<(Key, Param)>): (r: seq<Key>)
    ensures |r| == |d|
    ensures forall i :: 0 <= i < |d| ==> r[i] == d[i].0
  {
    seq(|d|, i requires 0 <= i < |d| => d[i].0)
  }

  /** `$kvs`: one `f = :f` entry per key. */
  function Assignments(fields: seq<Key>): (r: seq<string>)
    ensures |r| == |fields|
    ensures forall i :: 0 <= i < |fields| ==> r[i] == KeyName(fields[i]) + " = :" + KeyName(fields[i])
  {
    seq(|fields|, i requires 0 <= i < |fields| => KeyName(fields[i]) + " = :" + KeyName(fields[i]))
  }

  /** `$placeholders`: `:f` per key. */
  function Placeholders(fields: seq<Key>): (r: seq<string>)
    ensures |r| == |fields|
    ensures forall i :: 0 <= i < |fields| ==> r[i] == ":" + KeyName(fields[i])
  {
    seq(|fields|, i requires 0 <= i < |fields| => ":" + KeyName(fields[i]))
  }

  function Names(fields: seq<Key>): seq<string>
    ensures |Names(fields)| == |fields|
  {
    seq(|fields|, i requires 0 <= i < |fields| => KeyName(fields[i]))
  }

  /** A prepared statement: its text and the named parameters passed to
      `execute`. */
  datatype Statement = Statement(sql: string, params: seq<(Key, Param)>)

  /** The placeholders the named parameters of `d` fill. */
  function ParamNames(d: seq<(Key, Param)>): set<string>
  {
    set p | p in d :: ":" + KeyName(p.0)
  }

  /** A character PDO accepts in a placeholder name. */
  predicate NameChar(c: char)
  {
    'a' <= c <= 'z' || 'A' <= c <= 'Z' || '0' <= c <= '9' || c == '_'
  }

  /** The length of the run of name characters that starts `s`. */
  function NameRun(s: string): (n: nat)
    ensures n <= |s|
    ensures forall i :: 0 <= i < n ==> NameChar(s[i])
    ensures n < |s| ==> !NameChar(s[n])
  {
    if |s| == 0 || !NameChar(s[0]) then 0 else 1 + NameRun(s[1..])
  }

  /** The named placeholders PDO finds in a statement's text, read left to
      right: a `:` followed by a non-empty run of name characters. The
      statements here hold no quoted text, so quoting is not modelled. */
  function PlaceholdersIn(sql: string): (ps: set<string>)
    ensures forall p :: p in ps ==> |p| >= 2 && p[0] == ':'
    decreases |sql|
  {
    if |sql| == 0 then {}
    else
      var n := NameRun(sql[1..]);
      if sql[0] == ':' && n > 0 then {sql[..n + 1]} + PlaceholdersIn(sql[n + 1..])
      else PlaceholdersIn(sql[1..])
  }

  /** PDO binds every placeholder of the text, and the named parameters
      fill nothing else. */
  predicate BindsExactly(s: Statement)
  {
    PlaceholdersIn(s.sql) == ParamNames(s.params)
  }

  /** Text without a colon holds no placeholder, and does not change those
      of the text it precedes. */
  lemma {:induction false} NoColonPrefix(a: string, b: string)
    requires ':' !in a
    ensures PlaceholdersIn(a + b) == PlaceholdersIn(b)
    decreases |a|
  {
    if |a| > 0 {
      assert (a + b)[0] == a[0] && (a + b)[1..] == a[1..] + b;
      assert ':' !in a[1..] by {
        assert forall i :: 0 <= i < |a[1..]| ==> a[1..][i] == a[i + 1];
      }
      NoColonPrefix(a[1..], b);
    } else {
      assert a + b == b;
    }
  }

  lemma {:induction false} NameRunAppend(x: string, b: string)
    requires |b| == 0 || !NameChar(b[0])
    ensures NameRun(x + b) == NameRun(x)
    decreases |x|
  {
    if |x| == 0 {
      assert x + b == b;
    } else {
      assert (x + b)[0] == x[0] && (x + b)[1..] == x[1..] + b;
      NameRunAppend(x[1..], b);
    }
  }

  /** A placeholder cannot run across a boundary where a non-name character
      follows, so the placeholders of the parts add up. */
  lemma {:induction false} PlaceholdersAppend(a: string, b: string)
    requires |b| == 0 || !NameChar(b[0])
    ensures PlaceholdersIn(a + b) == PlaceholdersIn(a) + PlaceholdersIn(b)
    decreases |a|
  {
    if |a| == 0 {
      assert a + b == b;
    } else {
      NameRunAppend(a[1..], b);
      var n := NameRun(a[1..]);
      if a[0] == ':' && n > 0 {
        PlaceholdersAppend(a[n + 1..], b);
        AppendAtPlaceholder(a, b, n);
      } else {
        PlaceholdersAppend(a[1..], b);
        AppendAtOther(a, b);
      }
    }
  }

  /** One scanning step of `a + b` when `a` starts with a placeholder of
      `n` name characters that ends inside `a`. */
  lemma AppendAtPlaceholder(a: string, b: string, n: nat)
    requires |a| > 0 && a[0] == ':' && 0 < n == NameRun(a[1..]) == NameRun(a[1..] + b)
    ensures PlaceholdersIn(a + b) == {a[..n + 1]} + PlaceholdersIn(a[n + 1..] + b)
    ensures PlaceholdersIn(a) == {a[..n + 1]} + PlaceholdersIn(a[n + 1..])
  {
    var s := a + b;
    assert s[0] == a[0] && s[1..] == a[1..] + b;
    assert s[..n + 1] == a[..n + 1];
    assert s[n + 1..] == a[n + 1..] + b;
  }

  /** One scanning step of `a + b` when no placeholder starts `a`. */
  lemma AppendAtOther(a: string, b: string)
    requires |a| > 0 && !(a[0] == ':' && NameRun(a[1..]) > 0) && NameRun(a[1..]) == NameRun(a[1..] + b)
    ensures PlaceholdersIn(a + b) == PlaceholdersIn(a[1..] + b)
    ensures PlaceholdersIn(a) == PlaceholdersIn(a[1..])
  {
    var s := a + b;
    assert s[0] == a[0] && s[1..] == a[1..] + b;
  }

  lemma {:induction false} NameRunAll(name: string)
    requires forall i :: 0 <= i < |name| ==> NameChar(name[i])
    ensures NameRun(name) == |name|
    decreases |name|
  {
    if |name| > 0 {
      assert forall i :: 0 <= i < |name[1..]| ==> name[1..][i] == name[i + 1];
      NameRunAll(name[1..]);
    }
  }

  /** `:name` is one placeholder. */
  lemma PlaceholderOf(name: string)
    requires |name| > 0 && forall i :: 0 <= i < |name| ==> NameChar(name[i])
    ensures PlaceholdersIn(":" + name) == {":" + name}
  {
    var s := ":" + name;
    assert s[1..] == name;
    NameRunAll(name);
    assert s[..|name| + 1] == s && s[|name| + 1..] == "";
  }

  lemma KeyNameChars(k: Key)
    ensures |KeyName(k)| > 0 && forall i :: 0 <= i < |KeyName(k)| ==> NameChar(KeyName(k)[i])
    ensures ':' !in KeyName(k)
  {
  }

  /** The placeholders of a `, `-joined list are those of its entries. */
  lemma {:induction false} PlaceholdersOfJoin(parts: seq<string>)
    ensures forall p :: p in PlaceholdersIn(Join(", ", parts)) <==>
      exists i :: 0 <= i < |parts| && p in PlaceholdersIn(parts[i])
    decreases |parts|
  {
    if |parts| > 1 {
      var rest := Join(", ", parts[1..]);
      assert Join(", ", parts) == parts[0] + (", " + rest);
      PlaceholdersAppend(parts[0], ", " + rest);
      NoColonPrefix(", ", rest);
      PlaceholdersOfJoin(parts[1..]);
      forall p
        ensures (exists i :: 0 <= i < |parts| && p in PlaceholdersIn(parts[i])) <==>
          p in PlaceholdersIn(parts[0]) || exists i :: 0 <= i < |parts[1..]| && p in PlaceholdersIn(parts[1..][i])
      {
        if exists i :: 0 <= i < |parts| && p in PlaceholdersIn(parts[i]) {
          var i :| 0 <= i < |parts| && p in PlaceholdersIn(parts[i]);
          if i > 0 {
            assert parts[1..][i - 1] == parts[i];
          }
        }
      }
    }
  }

  /** Each `f = :f` entry of the SET list names the placeholder `:f`. */
  lemma AssignmentPlaceholders(k: Key)
    ensures PlaceholdersIn(KeyName(k) + " = :" + KeyName(k)) == {":" + KeyName(k)}
  {
    var name := KeyName(k);
    KeyNameChars(k);
    assert name + " = :" + name == name + (" = " + (":" + name));
    NoColonPrefix(name, " = " + (":" + name));
    NoColonPrefix(" = ", ":" + name);
    PlaceholderOf(name);
  }

  /** Joining entries that each name one placeholder names exactly those. */
  lemma JoinOfSingletons(parts: seq<string>, fields: seq<Key>)
    requires |parts| == |fields|
    requires forall i :: 0 <= i < |parts| ==> PlaceholdersIn(parts[i]) == {":" + KeyName(fields[i])}
    ensures PlaceholdersIn(Join(", ", parts)) == set i | 0 <= i < |fields| :: ":" + KeyName(fields[i])
  {
    PlaceholdersOfJoin(parts);
  }

  /** The SET list names the placeholder of each of its keys. */
  lemma AssignmentsPlaceholders(fields: seq<Key>)
    ensures PlaceholdersIn(Join(", ", Assignments(fields))) == set i | 0 <= i < |fields| :: ":" + KeyName(fields[i])
  {
    forall i | 0 <= i < |fields|
      ensures PlaceholdersIn(Assignments(fields)[i]) == {":" + KeyName(fields[i])}
    {
      AssignmentPlaceholders(fields[i]);
    }
    JoinOfSingletons(Assignments(fields), fields);
  }

  /** The VALUES list names the placeholder of each of its keys. */
  lemma ValuesPlaceholders(fields: seq<Key>)
    ensures PlaceholdersIn(Join(", ", Placeholders(fields))) == set i | 0 <= i < |fields| :: ":" + KeyName(fields[i])
  {
    forall i | 0 <= i < |fields|
      ensures PlaceholdersIn(Placeholders(fields)[i]) == {":" + KeyName(fields[i])}
    {
      KeyNameChars(fields[i]);
      PlaceholderOf(KeyName(fields[i]));
    }
    JoinOfSingletons(Placeholders(fields), fields);
  }

  /** The column list names no placeholder. */
  lemma NamesPlaceholders(fields: seq<Key>)
    ensures PlaceholdersIn(Join(", ", Names(fields))) == {}
  {
    forall i | 0 <= i < |fields|
      ensures PlaceholdersIn(Names(fields)[i]) == {}
    {
      KeyNameChars(fields[i]);
      NoColonPrefix(KeyName(fields[i]), "");
      assert KeyName(fields[i]) + "" == KeyName(fields[i]);
    }
    PlaceholdersOfJoin(Names(fields));
  }

  /** `p` is a colon and a non-empty run of name characters. */
  predicate IsPlaceholder(p: string)
  {
    |p| >= 2 && p[0] == ':' && forall i :: 1 <= i < |p| ==> NameChar(p[i])
  }

  /** A whole placeholder is one placeholder. */
  lemma SinglePlaceholder(p: string)
    requires IsPlaceholder(p)
    ensures PlaceholdersIn(p) == {p}
  {
    var name := p[1..];
    assert forall i :: 0 <= i < |name| ==> name[i] == p[i + 1];
    PlaceholderOf(name);
    assert ":" + name == p;
  }

  lemma {:induction false} NoColonNone(s: string)
    requires ':' !in s
    ensures PlaceholdersIn(s) == {}
  {
    NoColonPrefix(s, "");
    assert s + "" == s;
  }

  /** Two placeholders separated by colon-free text. */
  lemma TwoPlaceholders(a: string, p: string, b: string, q: string)
    requires ':' !in a && ':' !in b && |b| > 0 && !NameChar(b[0])
    requires IsPlaceholder(p) && IsPlaceholder(q)
    ensures PlaceholdersIn(a + (p + (b + q))) == {p, q}
  {
    var tail := b + q;
    SinglePlaceholder(q);
    NoColonPrefix(b, q);
    assert tail[0] == b[0];
    SinglePlaceholder(p);
    PlaceholdersAppend(p, tail);
    NoColonPrefix(a, p + tail);
  }

  /** The fixed text of the two statements. */
  const UpdateHead: string := "update tool set "
  /** The `where` clause of the update, after its leading space. */
  const UpdateWhere: string := " where id = " + (":toolId" + (" and owner_id = " + ":neighborId"))
  const InsertHead: string := "insert into tool("
  const InsertMiddle: string := ") values ("
  const InsertTail: string := ") returning id"

  lemma FixedText()
    ensures ':' !in UpdateHead && ':' !in InsertHead && ':' !in InsertMiddle && ':' !in InsertTail
    ensures ':' !in " where id = " && ':' !in " and owner_id = " && !NameChar(" and owner_id = "[0])
    ensures IsPlaceholder(":toolId") && IsPlaceholder(":neighborId")
    ensures UpdateWhere[0] == ' ' && InsertMiddle[0] == ')' && InsertTail[0] == ')'
  {
  }

  lemma UpdateWherePlaceholders()
    ensures PlaceholdersIn(UpdateWhere) == {":toolId", ":neighborId"}
  {
    FixedText();
    TwoPlaceholders(" where id = ", ":toolId", " and owner_id = ", ":neighborId");
  }

  /** `update tool set <kvs> where ...`. */
  function UpdateSql(fields: seq<Key>): string
  {
    UpdateHead + Join(", ", Assignments(fields)) + UpdateWhere
  }

  lemma UpdateSqlPlaceholders(fields: seq<Key>)
    ensures PlaceholdersIn(UpdateSql(fields)) ==
      (set i | 0 <= i < |fields| :: ":" + KeyName(fields[i])) + {":toolId", ":neighborId"}
  {
    var j := Join(", ", Assignments(fields));
    FixedText();
    PlaceholdersAppend(UpdateHead + j, UpdateWhere);
    NoColonPrefix(UpdateHead, j);
    AssignmentsPlaceholders(fields);
    UpdateWherePlaceholders();
  }

  /** `insert into tool(<fields>) values (<placeholders>) returning id`. */
  function InsertSql(fields: seq<Key>): string
  {
    InsertHead + Join(", ", Names(fields)) + (InsertMiddle + (Join(", ", Placeholders(fields)) + InsertTail))
  }

  lemma InsertSqlPlaceholders(fields: seq<Key>)
    ensures PlaceholdersIn(InsertSql(fields)) == set i | 0 <= i < |fields| :: ":" + KeyName(fields[i])
  {
    FixedText();
    ThreePieces(InsertHead, Join(", ", Names(fields)), InsertMiddle, Join(", ", Placeholders(fields)), InsertTail);
    NamesPlaceholders(fields);
    ValuesPlaceholders(fields);
  }

  /** Colon-free text around two lists adds no placeholder of its own. */
  lemma ThreePieces(h: string, x: string, m: string, y: string, t: string)
    requires ':' !in h && ':' !in m && ':' !in t
    requires |m| > 0 && !NameChar(m[0]) && |t| > 0 && !NameChar(t[0])
    ensures PlaceholdersIn(h + x + (m + (y + t))) == PlaceholdersIn(x) + PlaceholdersIn(y)
  {
    PlaceholdersAppend(h + x, m + (y + t));
    NoColonPrefix(h, x);
    NoColonPrefix(m, y + t);
    PlaceholdersAppend(y, t);
    NoColonNone(t);
  }

  /** The columns of the tool form in the order `$data` lists them. */
  function FormColumns(withOwner: bool, photo: bool): seq<Key>
  {
    (if withOwner then [OwnerId] else [])
    + [Name, ProductUrl, ReplacementCost, Category, ShortName, Brand, SearchTerms]
    + (if photo then [PhotoLink] else [])
  }

  lemma ToolDataKeys(f: ToolForm, filename: Option<string>, withOwner: bool)
    ensures Keys(ToolData(f, filename, withOwner)) == FormColumns(withOwner, Truthy(filename))
  {
  }

  /** The placeholders written for the keys of `d` are those its parameters fill. */
  lemma PlaceholdersOfKeys(d: seq<(Key, Param)>)
    ensures (set i | 0 <= i < |d| :: Placeholders(Keys(d))[i]) == ParamNames(d)
  {
    forall x | x in ParamNames(d)
      ensures x in (set i | 0 <= i < |d| :: Placeholders(Keys(d))[i])
    {
      var p :| p in d && x == ":" + KeyName(p.0);
      var i :| 0 <= i < |d| && d[i] == p;
      assert x == Placeholders(Keys(d))[i];
    }
  }

  function UpdateStatement(toolId: int, f: ToolForm, filename: Option<string>): (s: Statement)
    ensures BindsExactly(s)
    ensures |s.params| >= 2 && Keys(s.params)[|s.params| - 2..] == [ToolId, NeighborId]
    ensures s.sql == UpdateSql(Keys(s.params)[..|s.params| - 2])
    ensures PhotoLink in Keys(s.params) <==> Truthy(filename)
    ensures (SearchTerms, PText(EncodeSearchTerms(f.searchTerms))) in s.params
    ensures OwnerId !in Keys(s.params)
  {
    var data := ToolData(f, filename, false);
    var extra := [(ToolId, PInt(toolId)), (NeighborId, PText(f.neighborId))];
    UpdateParams(toolId, f, filename);
    UpdateSqlPlaceholders(Keys(data));
    KeysSplit(data, extra);
    WhereKeys(extra);
    assert |data + extra| - 2 == |data|;
    Statement(UpdateSql(Keys(data)), data + extra)
  }

  lemma WhereKeys(e: seq<(Key, Param)>)
    requires |e| == 2 && e[0].0 == ToolId && e[1].0 == NeighborId
    ensures Keys(e) == [ToolId, NeighborId]
  {
  }

  lemma KeysSplit(d: seq<(Key, Param)>, e: seq<(Key, Param)>)
    ensures Keys(d + e)[..|d|] == Keys(d) && Keys(d + e)[|d|..] == Keys(e)
  {
  }

  lemma UpdateParams(toolId: int, f: ToolForm, filename: Option<string>)
    ensures var data := ToolData(f, filename, false);
      var params := data + [(ToolId, PInt(toolId)), (NeighborId, PText(f.neighborId))];
      && ParamNames(params) == (set i | 0 <= i < |data| :: ":" + KeyName(Keys(data)[i])) + {":toolId", ":neighborId"}
      && (PhotoLink in Keys(params) <==> Truthy(filename))
      && OwnerId !in Keys(params)
      && (SearchTerms, PText(EncodeSearchTerms(f.searchTerms))) in params
  {
    var data := ToolData(f, filename, false);
    var extra := [(ToolId, PInt(toolId)), (NeighborId, PText(f.neighborId))];
    UpdateNames(data, extra);
    ToolDataKeys(f, filename, false);
    UpdateKeys(data, extra, Truthy(filename));
    UpdateSearchTerms(f, filename, extra);
  }

  lemma UpdateKeys(data: seq<(Key, Param)>, extra: seq<(Key, Param)>, photo: bool)
    requires Keys(data) == FormColumns(false, photo)
    requires |extra| == 2 && extra[0].0 == ToolId && extra[1].0 == NeighborId
    ensures PhotoLink in Keys(data + extra) <==> photo
    ensures OwnerId !in Keys(data + extra)
  {
    var ks := Keys(data + extra);
    assert ks == FormColumns(false, photo) + [ToolId, NeighborId];
  }

  lemma UpdateSearchTerms(f: ToolForm, filename: Option<string>, extra: seq<(Key, Param)>)
    ensures (SearchTerms, PText(EncodeSearchTerms(f.searchTerms))) in ToolData(f, filename, false) + extra
  {
    var data := ToolData(f, filename, false);
    assert data[6] == (SearchTerms, PText(EncodeSearchTerms(f.searchTerms)));
    assert (data + extra)[6] == data[6];
  }

  lemma UpdateNames(data: seq<(Key, Param)>, extra: seq<(Key, Param)>)
    requires |extra| == 2 && extra[0].0 == ToolId && extra[1].0 == NeighborId
    ensures ParamNames(data + extra) == (set i | 0 <= i < |data| :: ":" + KeyName(Keys(data)[i])) + {":toolId", ":neighborId"}
  {
    PlaceholdersOfKeys(data);
    assert (set i | 0 <= i < |data| :: ":" + KeyName(Keys(data)[i])) == (set i | 0 <= i < |data| :: Placeholders(Keys(data))[i]);
    assert extra[0] in extra && extra[1] in extra;
    assert ParamNames(data + extra) == ParamNames(data) + ParamNames(extra);
    assert ParamNames(extra) == {":toolId", ":neighborId"} by {
      assert extra == [extra[0], extra[1]];
      assert ":" + KeyName(ToolId) == ":toolId" && ":" + KeyName(NeighborId) == ":neighborId";
    }
  }

  function CreateStatement(f: ToolForm, filename: Option<string>): (s: Statement)
    ensures BindsExactly(s)
    ensures s.sql == InsertSql(Keys(s.params))
    ensures PhotoLink in Keys(s.params) <==> Truthy(filename)
    ensures (OwnerId, PText(f.neighborId)) in s.params
    ensures (SearchTerms, PText(EncodeSearchTerms(f.searchTerms))) in s.params
  {
    var data := ToolData(f, filename, true);
    CreateParams(f, filename);
    InsertSqlPlaceholders(Keys(data));
    Statement(InsertSql(Keys(data)), data)
  }

  lemma CreateParams(f: ToolForm, filename: Option<string>)
    ensures var data := ToolData(f, filename, true);
      && ParamNames(data) == (set i | 0 <= i < |data| :: ":" + KeyName(Keys(data)[i]))
      && (PhotoLink in Keys(data) <==> Truthy(filename))
      && (OwnerId, PText(f.neighborId)) in data
      && (SearchTerms, PText(EncodeSearchTerms(f.searchTerms))) in data
  {
    var data := ToolData(f, filename, true);
    PlaceholdersOfKeys(data);
    assert (set i | 0 <= i < |data| :: ":" + KeyName(Keys(data)[i])) == (set i | 0 <= i < |data| :: Placeholders(Keys(data))[i]);
    ToolDataKeys(f, filename, true);
    assert data[0] == (OwnerId, PText(f.neighborId));
    assert data[7] == (SearchTerms, PText(EncodeSearchTerms(f.searchTerms)));
  }

  /** The insert lists each column once, owner first, with the placeholders
      in the same order. */
  lemma CreateColumnsLineUp(f: ToolForm, filename: Option<string>)
    ensures var fields := Keys(ToolData(f, filename, true));
      && |Placeholders(fields)| == |Names(fields)|
      && (forall i :: 0 <= i < |fields| ==> Placeholders(fields)[i] == ":" + Names(fields)[i])
      && (forall i, j :: 0 <= i < j < |fields| ==> fields[i] != fields[j])
      && (forall i :: 0 <= i < |fields| ==> IsColumn(fields[i]))
      && fields[0] == OwnerId
  {
  }

  /** The update sets every form column except the owner exactly once. */
  lemma UpdateColumnsDistinct(f: ToolForm, filename: Option<string>)
    ensures var fields := Keys(ToolData(f, filename, false));
      && (forall i, j :: 0 <= i < j < |fields| ==> fields[i] != fields[j])
      && (forall i :: 0 <= i < |fields| ==> IsColumn(fields[i]))
      && |fields| == if Truthy(filename) then 8 else 7
  {
  }
}
