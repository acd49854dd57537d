/**
 Compilation of the node list filter into a parameterised WHERE clause (internal/store/repo.go):
 splitting a query into terms, one parenthesised group per term, and the arguments in placeholder order.
 `ReadText` reads the text that is built as the database does: words and signs, then the tests they spell,
 then AND and OR by the precedence rules of SQL (AND binds tighter), each placeholder taking its argument.
 So what is proved is what the database will decide for each row, not what the builder meant.
 */
module SearchQuery {
  import opened Wrappers
  import opened Lines
  import opened LikePattern

  // ----- Terms --------------------------------------------------------------------

  const MAX_TERMS := 6
  const MAX_TERM_RUNES := 64

  /** White space, and the punctuation that separates a list in English or Chinese. */
  predicate IsSeparator(c: char) {
    IsSpace(c) || c in {',', ';', '|', '\U{FF0C}', '\U{3001}', '\U{FF1B}', '\U{FF5C}'}
  }

  lemma SeparatorsExactly(c: char)
    ensures IsSeparator(c) <==>
              || IsSpace(c) || c as int == 0x2C || c as int == 0x3B || c as int == 0x7C
              || c as int == 0xFF0C || c as int == 0x3001 || c as int == 0xFF1B || c as int == 0xFF5C
  {
  }

  predicate IsWord(s: string) {
    s != [] && forall c | c in s :: !IsSeparator(c)
  }

  predicate IsGap(s: string) {
    forall c | c in s :: IsSeparator(c)
  }

  function WordLength(s: string): (n: nat)
    ensures n <= |s| && (n < |s| ==> IsSeparator(s[n]))
    ensures forall i | 0 <= i < n :: !IsSeparator(s[i])
  {
    if s == [] || IsSeparator(s[0]) then 0 else 1 + WordLength(s[1..])
  }

  /** The maximal runs of characters that are not separators, in order. */
  function Fields(s: string): (words: seq<string>)
    ensures forall w | w in words :: IsWord(w)
  {
    if s == [] then []
    else if IsSeparator(s[0]) then Fields(s[1..])
    else var n := WordLength(s); [s[..n]] + Fields(s[n..])
  }

  /** Words with a gap before, between and after them; only the outer gaps may be empty. */
  ghost predicate Spacing(gaps: seq<string>, words: seq<string>) {
    && |gaps| == |words| + 1
    && (forall g | g in gaps :: IsGap(g))
    && (forall w | w in words :: IsWord(w))
    && (forall i | 0 < i < |words| :: gaps[i] != [])
  }

  ghost function Spaced(gaps: seq<string>, words: seq<string>): string
    requires |gaps| == |words| + 1
  {
    if words == [] then gaps[0] else gaps[0] + words[0] + Spaced(gaps[1..], words[1..])
  }

  lemma {:induction false} GapIsSkipped(gap: string, rest: string)
    requires IsGap(gap)
    ensures Fields(gap + rest) == Fields(rest)
  {
    if gap == [] {
      assert gap + rest == rest;
    } else {
      assert (gap + rest)[1..] == gap[1..] + rest;
      GapIsSkipped(gap[1..], rest);
    }
  }

  lemma {:induction false} WordEndsAtSeparator(word: string, rest: string)
    requires forall c | c in word :: !IsSeparator(c)
    requires rest == [] || IsSeparator(rest[0])
    ensures WordLength(word + rest) == |word|
  {
    if word == [] {
      assert word + rest == rest;
    } else {
      assert (word + rest)[1..] == word[1..] + rest;
      WordEndsAtSeparator(word[1..], rest);
    }
  }

  lemma SpacedStart(gaps: seq<string>, words: seq<string>)
    requires Spacing(gaps, words) && words != []
    ensures var rest := Spaced(gaps[1..], words[1..]); rest == [] || IsSeparator(rest[0])
  {
    assert gaps[1] in gaps;
    if words[1..] != [] {
      assert gaps[1] != [] && Spaced(gaps[1..], words[1..])[0] == gaps[1][0];
    }
  }

  /** A query's terms are its words, whatever separates them. */
  lemma {:induction false} FieldsOfSpaced(gaps: seq<string>, words: seq<string>)
    requires Spacing(gaps, words)
    ensures Fields(Spaced(gaps, words)) == words
    decreases |words|
  {
    if words == [] {
      assert gaps[0] + [] == gaps[0];
      GapIsSkipped(gaps[0], []);
    } else {
      FieldsOfSpaced(gaps[1..], words[1..]);
      SpacedStart(gaps, words);
      assert words[0] in words && gaps[0] in gaps;
      FieldsFrom(gaps[0], words[0], Spaced(gaps[1..], words[1..]));
      assert words == [words[0]] + words[1..];
    }
  }

  lemma FieldsFrom(gap: string, word: string, rest: string)
    requires IsGap(gap) && IsWord(word) && (rest == [] || IsSeparator(rest[0]))
    ensures Fields(gap + word + rest) == [word] + Fields(rest)
  {
    GapIsSkipped(gap, word + rest);
    FieldsFromWord(word, rest);
    assert gap + word + rest == gap + (word + rest);
  }

  lemma FieldsFromWord(word: string, rest: string)
    requires IsWord(word) && (rest == [] || IsSeparator(rest[0]))
    ensures Fields(word + rest) == [word] + Fields(rest)
  {
    WordEndsAtSeparator(word, rest);
    assert (word + rest)[..|word|] == word && (word + rest)[|word|..] == rest;
    assert (word + rest)[0] == word[0] && word[0] in word;
  }

  lemma WiderGap(c: char, inner: seq<string>, words: seq<string>) returns (gaps: seq<string>)
    requires Spacing(inner, words) && IsSeparator(c)
    ensures Spacing(gaps, words) && Spaced(gaps, words) == [c] + Spaced(inner, words) && gaps[0] != []
  {
    gaps := inner[0 := [c] + inner[0]];
    assert inner[0] in inner && gaps[1..] == inner[1..];
    if words != [] {
      var rest := words[0] + Spaced(inner[1..], words[1..]);
      assert Spaced(gaps, words) == gaps[0] + rest && Spaced(inner, words) == inner[0] + rest;
    }
  }

  lemma WordFirst(word: string, inner: seq<string>, words: seq<string>)
    requires IsWord(word) && Spacing(inner, words) && (words != [] ==> inner[0] != [])
    ensures Spacing([[]] + inner, [word] + words) && Spaced([[]] + inner, [word] + words) == word + Spaced(inner, words)
  {
    var gaps, all: seq<string> := [[]] + inner, [word] + words;
    assert gaps[1..] == inner && all[1..] == words;
    assert [] + word == word;
  }

  lemma NextWord(s: string) returns (word: string, rest: string)
    requires s != [] && !IsSeparator(s[0])
    ensures s == word + rest && IsWord(word) && (rest == [] || IsSeparator(rest[0]))
    ensures Fields(s) == [word] + Fields(rest)
  {
    var n := WordLength(s);
    word, rest := s[..n], s[n..];
    assert Fields(s)[0] in Fields(s);
  }

  lemma NoWordsInNothing(gaps: seq<string>, words: seq<string>)
    requires words == Fields([]) && gaps == [[]]
    ensures Spacing(gaps, words) && Spaced(gaps, words) == []
  {
  }

  /** And every query is its words spaced out somehow. */
  lemma {:induction false} FieldsRebuild(s: string) returns (gaps: seq<string>)
    ensures Spacing(gaps, Fields(s)) && Spaced(gaps, Fields(s)) == s
    ensures s != [] && IsSeparator(s[0]) ==> gaps[0] != []
    decreases |s|
  {
    if s == [] {
      gaps := [[]];
      NoWordsInNothing(gaps, Fields(s));
    } else if IsSeparator(s[0]) {
      var inner := FieldsRebuild(s[1..]);
      gaps := WiderGap(s[0], inner, Fields(s[1..]));
    } else {
      var word, rest := NextWord(s);
      var inner := FieldsRebuild(rest);
      WordFirst(word, inner, Fields(rest));
      gaps := [[]] + inner;
    }
  }

  function Shorten(word: string): (w: string)
    requires IsWord(word)
    ensures IsWord(w) && |w| <= MAX_TERM_RUNES && w <= word
    ensures |w| < |word| ==> |w| == MAX_TERM_RUNES
  {
    word[..Min(|word|, MAX_TERM_RUNES)]
  }

  /** The first words of the query, each cut to the length bound. */
  function Terms(search: string): (terms: seq<string>)
    ensures |terms| == Min(|Fields(search)|, MAX_TERMS)
    ensures forall i | 0 <= i < |terms| :: terms[i] == Shorten(Fields(search)[i])
    ensures forall t | t in terms :: IsWord(t) && |t| <= MAX_TERM_RUNES
  {
    var fields := Fields(search);
    seq(Min(|fields|, MAX_TERMS), i requires 0 <= i < |fields| => Shorten(fields[i]))
  }

  method SearchTerms(search: string) returns (out: seq<string>)
    ensures out == Terms(search)
  {
    var fields := Fields(search);
    if |fields| > MAX_TERMS {
      fields := fields[..MAX_TERMS];
    }
    out := [];
    for i := 0 to |fields|
      invariant |out| == i && forall k | 0 <= k < i :: out[k] == Terms(search)[k]
    {
      var f := fields[i];
      if |f| > MAX_TERM_RUNES {
        f := f[..MAX_TERM_RUNES];
      }
      assert f == Shorten(Fields(search)[i]);
      out := out + [f];
    }
  }

  // ----- Rows and what a filter asks of them --------------------------------------------

  /** What the tests of a clause look at: the text and number columns by name, and whether the node is a favourite. */
  datatype Row = Row(cell: string -> string, number: string -> int, favorite: bool)

  const SEARCH_COLUMNS := ["ip_address", "remote_host", "host_name", "provider_identity", "country", "country_code", "location",
                           "owner", "as_name", "asn"]

  datatype NodeFilter = NodeFilter(ipType: string, status: string, country: string, search: string,
                                   favoriteOnly: bool, listedOnly: bool, reachableOnly: bool)

  /** The country table: the codes a term names, and the code of a country ("" when unknown). */
  datatype Countries = Countries(matching: string -> seq<string>, codeOf: string -> string)

  /** A term occurs in one of ten columns, begins the id, or names the country. */
  ghost predicate TermFinds(countries: Countries, term: string, row: Row) {
    || (exists col | col in {"ip_address", "remote_host", "host_name", "provider_identity", "country", "country_code", "location",
                             "owner", "as_name", "asn"} :: Occurs(term, row.cell(col)))
    || (|term| <= |row.cell("id")| && EqualFold(term, row.cell("id")[..|term|]))
    || row.cell("country_code") in countries.matching(term)
  }

  ghost predicate CountryIs(countries: Countries, country: string, row: Row) {
    || row.cell("country") == country
    || row.cell("country_code") == (if countries.codeOf(country) != "" then countries.codeOf(country) else country)
  }

  /** The rows a filter stands for: each test present narrows, the terms are alternatives in no case. */
  ghost predicate Matches(countries: Countries, f: NodeFilter, row: Row) {
    && (f.ipType != "" ==> row.cell("ip_type") == f.ipType)
    && (f.status != "" ==> row.cell("status") == f.status)
    && (f.country != "" ==> CountryIs(countries, f.country, row))
    && (forall term | term in Terms(f.search) :: TermFinds(countries, term, row))
    && (f.favoriteOnly ==> row.favorite)
    && (f.listedOnly ==> row.number("source_present") == 1)
    && (f.reachableOnly ==> row.number("liveness_failures") == 0)
  }

  // ----- The language of the clause ------------------------------------------------------

  /** A test with its placeholders, or one of the words that combine tests. */
  datatype Token = LikeTest(col: string) | EqualTest(col: string) | InTest(col: string, count: nat)
                 | NumberTest(col: string, value: nat) | FavoriteTest | Open | Close | And | Or

  predicate IsName(s: string) {
    s != "" && forall c | c in s :: 'a' <= c <= 'z' || c == '_'
  }

  predicate IsTest(t: Token) {
    match t
    case LikeTest(col) => IsName(col)
    case EqualTest(col) => IsName(col)
    case InTest(col, n) => IsName(col) && n > 0
    case NumberTest(col, n) => IsName(col) && n <= 9
    case FavoriteTest => true
    case _ => false
  }

  predicate Combines(t: Token) { t.Open? || t.Close? || t.And? || t.Or? }

  function Arity(t: Token): nat {
    match t
    case LikeTest(_) => 1
    case EqualTest(_) => 1
    case InTest(_, n) => n
    case _ => 0
  }

  ghost predicate Holds(row: Row, t: Token, args: seq<string>)
    requires !Combines(t) && |args| == Arity(t)
  {
    match t
    case LikeTest(col) => Like(args[0], row.cell(col))
    case EqualTest(col) => row.cell(col) == args[0]
    case InTest(col, _) => row.cell(col) in args
    case NumberTest(col, n) => row.number(col) == n
    case FavoriteTest => row.favorite
  }

  /** What reading an expression gives: its value, and the tokens and arguments left over. */
  datatype Reading = Reading(value: bool, rest: seq<Token>, args: seq<string>)

  ghost function ReadOr(row: Row, ts: seq<Token>, args: seq<string>): (r: Option<Reading>)
    ensures r.Some? ==> |r.value.rest| < |ts|
    decreases |ts|, 2
  {
    match ReadAnd(row, ts, args)
    case None => None
    case Some(left) =>
      if left.rest == [] || left.rest[0] != Or then Some(left)
      else
        match ReadOr(row, left.rest[1..], left.args)
        case None => None
        case Some(right) => Some(Reading(left.value || right.value, right.rest, right.args))
  }

  ghost function ReadAnd(row: Row, ts: seq<Token>, args: seq<string>): (r: Option<Reading>)
    ensures r.Some? ==> |r.value.rest| < |ts|
    decreases |ts|, 1
  {
    match ReadPrimary(row, ts, args)
    case None => None
    case Some(left) =>
      if left.rest == [] || left.rest[0] != And then Some(left)
      else
        match ReadAnd(row, left.rest[1..], left.args)
        case None => None
        case Some(right) => Some(Reading(left.value && right.value, right.rest, right.args))
  }

  ghost function ReadPrimary(row: Row, ts: seq<Token>, args: seq<string>): (r: Option<Reading>)
    ensures r.Some? ==> |r.value.rest| < |ts|
    decreases |ts|, 0
  {
    if ts == [] then None
    else if ts[0] == Open then
      match ReadOr(row, ts[1..], args)
      case None => None
      case Some(inner) =>
        if inner.rest == [] || inner.rest[0] != Close then None
        else Some(Reading(inner.value, inner.rest[1..], inner.args))
    else if Combines(ts[0]) || |args| < Arity(ts[0]) then None
    else Some(Reading(Holds(row, ts[0], args[..Arity(ts[0])]), ts[1..], args[Arity(ts[0])..]))
  }

  /** The database's answer for a row: the whole expression read, every argument bound. */
  ghost function Answer(row: Row, ts: seq<Token>, args: seq<string>): Option<bool> {
    match ReadOr(row, ts, args)
    case None => None
    case Some(r) => if r.rest == [] && r.args == [] then Some(r.value) else None
  }

  // ----- Clauses: one test, or alternatives in parentheses --------------------------------

  datatype Clause = Test(test: Token) | Group(tests: seq<Token>)

  ghost predicate Proper(c: Clause) {
    match c
    case Test(t) => IsTest(t)
    case Group(ts) => ts != [] && forall t | t in ts :: IsTest(t)
  }

  ghost function Need(tests: seq<Token>): nat {
    if tests == [] then 0 else Arity(tests[0]) + Need(tests[1..])
  }

  ghost function ClauseNeed(c: Clause): nat {
    match c
    case Test(t) => Arity(t)
    case Group(ts) => Need(ts)
  }

  ghost function ClausesNeed(cs: seq<Clause>): nat {
    if cs == [] then 0 else ClauseNeed(cs[0]) + ClausesNeed(cs[1..])
  }

  ghost predicate AnyHolds(row: Row, tests: seq<Token>, args: seq<string>)
    requires (forall t | t in tests :: IsTest(t)) && |args| == Need(tests)
  {
    tests != [] &&
    assert IsTest(tests[0]);
    (Holds(row, tests[0], args[..Arity(tests[0])]) || AnyHolds(row, tests[1..], args[Arity(tests[0])..]))
  }

  ghost predicate ClauseHolds(row: Row, c: Clause, args: seq<string>)
    requires Proper(c) && |args| == ClauseNeed(c)
  {
    match c
    case Test(t) => Holds(row, t, args)
    case Group(ts) => AnyHolds(row, ts, args)
  }

  ghost predicate AllHold(row: Row, cs: seq<Clause>, args: seq<string>)
    requires (forall c | c in cs :: Proper(c)) && |args| == ClausesNeed(cs)
  {
    cs == [] ||
    (ClauseHolds(row, cs[0], args[..ClauseNeed(cs[0])]) && AllHold(row, cs[1..], args[ClauseNeed(cs[0])..]))
  }

  lemma {:induction false} AnyHoldsAppend(row: Row, tests: seq<Token>, args: seq<string>, t: Token, own: seq<string>)
    requires (forall x | x in tests :: IsTest(x)) && |args| == Need(tests) && IsTest(t) && |own| == Arity(t)
    ensures Need(tests + [t]) == |args + own|
    ensures AnyHolds(row, tests + [t], args + own) <==> AnyHolds(row, tests, args) || Holds(row, t, own)
  {
    if tests == [] {
      assert tests + [t] == [t] && args + own == own && own[..Arity(t)] == own && own[Arity(t)..] == [];
      assert [t][1..] == [];
    } else {
      var a := Arity(tests[0]);
      assert (tests + [t])[1..] == tests[1..] + [t];
      assert (args + own)[..a] == args[..a] && (args + own)[a..] == args[a..] + own;
      AnyHoldsAppend(row, tests[1..], args[a..], t, own);
    }
  }

  lemma {:induction false} AllHoldAppend(row: Row, cs: seq<Clause>, args: seq<string>, c: Clause, own: seq<string>)
    requires (forall x | x in cs :: Proper(x)) && |args| == ClausesNeed(cs) && Proper(c) && |own| == ClauseNeed(c)
    ensures ClausesNeed(cs + [c]) == |args + own|
    ensures AllHold(row, cs + [c], args + own) <==> AllHold(row, cs, args) && ClauseHolds(row, c, own)
  {
    if cs == [] {
      assert cs + [c] == [c] && args + own == own && own[..ClauseNeed(c)] == own && own[ClauseNeed(c)..] == [];
      assert [c][1..] == [];
    } else {
      var a := ClauseNeed(cs[0]);
      assert (cs + [c])[1..] == cs[1..] + [c];
      assert (args + own)[..a] == args[..a] && (args + own)[a..] == args[a..] + own;
      AllHoldAppend(row, cs[1..], args[a..], c, own);
    }
  }

  // ----- The clause as tokens, and how it reads -------------------------------------------

  ghost function Alternatives(tests: seq<Token>): seq<Token> {
    if |tests| <= 1 then tests else [tests[0], Or] + Alternatives(tests[1..])
  }

  ghost function Tokens(c: Clause): seq<Token> {
    match c
    case Test(t) => [t]
    case Group(ts) => [Open] + Alternatives(ts) + [Close]
  }

  ghost function Conjunction(cs: seq<Clause>): seq<Token> {
    if cs == [] then []
    else if |cs| == 1 then Tokens(cs[0])
    else Tokens(cs[0]) + [And] + Conjunction(cs[1..])
  }

  lemma ReadTest(row: Row, t: Token, rest: seq<Token>, own: seq<string>, more: seq<string>)
    requires IsTest(t) && |own| == Arity(t)
    ensures ReadPrimary(row, [t] + rest, own + more) == Some(Reading(Holds(row, t, own), rest, more))
  {
    assert ([t] + rest)[1..] == rest;
    assert (own + more)[..Arity(t)] == own && (own + more)[Arity(t)..] == more;
  }

  /** Inside the parentheses the tests are alternatives, each taking its own arguments. */
  lemma {:induction false} ReadAlternatives(row: Row, tests: seq<Token>, rest: seq<Token>, own: seq<string>, more: seq<string>)
    requires tests != [] && (forall t | t in tests :: IsTest(t)) && |own| == Need(tests)
    ensures ReadOr(row, Alternatives(tests) + [Close] + rest, own + more)
            == Some(Reading(AnyHolds(row, tests, own), [Close] + rest, more))
    decreases |tests|
  {
    var a, t := Arity(tests[0]), tests[0];
    if |tests| == 1 {
      assert tests[1..] == [] && own[..a] == own && tests == [t];
      assert Alternatives(tests) + [Close] + rest == [t] + ([Close] + rest);
      ReadTest(row, t, [Close] + rest, own, more);
    } else {
      var tail := Alternatives(tests[1..]) + [Close] + rest;
      assert Alternatives(tests) + [Close] + rest == [t] + ([Or] + tail);
      assert own + more == own[..a] + (own[a..] + more);
      ReadAlternatives(row, tests[1..], rest, own[a..], more);
      ReadNextAlternative(row, t, tail, own[..a], own[a..] + more);
    }
  }

  lemma ReadNextAlternative(row: Row, t: Token, tail: seq<Token>, own: seq<string>, more: seq<string>)
    requires IsTest(t) && |own| == Arity(t) && ReadOr(row, tail, more).Some?
    ensures var right := ReadOr(row, tail, more).value;
            ReadOr(row, [t] + ([Or] + tail), own + more) == Some(Reading(Holds(row, t, own) || right.value, right.rest, right.args))
  {
    ReadTest(row, t, [Or] + tail, own, more);
    assert ([Or] + tail)[1..] == tail;
  }

  lemma ReadGroup(row: Row, tests: seq<Token>, rest: seq<Token>, own: seq<string>, more: seq<string>)
    requires tests != [] && (forall t | t in tests :: IsTest(t)) && |own| == Need(tests)
    ensures ReadPrimary(row, [Open] + Alternatives(tests) + [Close] + rest, own + more)
            == Some(Reading(AnyHolds(row, tests, own), rest, more))
  {
    ReadAlternatives(row, tests, rest, own, more);
    var ts := [Open] + Alternatives(tests) + [Close] + rest;
    assert ts[1..] == Alternatives(tests) + [Close] + rest;
    assert ([Close] + rest)[1..] == rest;
  }

  /** A clause reads as one operand: without its parentheses a group would split the AND around it. */
  lemma ReadClause(row: Row, c: Clause, rest: seq<Token>, own: seq<string>, more: seq<string>)
    requires Proper(c) && |own| == ClauseNeed(c)
    ensures ReadPrimary(row, Tokens(c) + rest, own + more) == Some(Reading(ClauseHolds(row, c, own), rest, more))
  {
    match c
    case Test(t) => ReadTest(row, t, rest, own, more);
    case Group(ts) => ReadGroup(row, ts, rest, own, more);
  }

  lemma {:induction false} ReadConjunction(row: Row, cs: seq<Clause>, args: seq<string>)
    requires cs != [] && (forall c | c in cs :: Proper(c)) && |args| == ClausesNeed(cs)
    ensures ReadAnd(row, Conjunction(cs), args) == Some(Reading(AllHold(row, cs, args), [], []))
    decreases |cs|
  {
    var a := ClauseNeed(cs[0]);
    assert args == args[..a] + args[a..];
    if |cs| == 1 {
      assert cs[1..] == [] && args[a..] == [] && Conjunction(cs) == Tokens(cs[0]) + [];
      ReadClause(row, cs[0], [], args[..a], args[a..]);
    } else {
      var tail := Conjunction(cs[1..]);
      assert Conjunction(cs) == Tokens(cs[0]) + ([And] + tail);
      ReadClause(row, cs[0], [And] + tail, args[..a], args[a..]);
      assert ([And] + tail)[1..] == tail;
      ReadConjunction(row, cs[1..], args[a..]);
    }
  }

  /** A conjunction of proper clauses is answered with the conjunction of their values. */
  lemma ConjunctionAnswers(row: Row, cs: seq<Clause>, args: seq<string>)
    requires cs != [] && (forall c | c in cs :: Proper(c)) && |args| == ClausesNeed(cs)
    ensures Answer(row, Conjunction(cs), args) == Some(AllHold(row, cs, args))
  {
    ReadConjunction(row, cs, args);
  }

  // ----- The clause as text ------------------------------------------------------------

  lemma JoinTwo(a: string, b: string, separator: string)
    ensures Join([a, b], separator) == a + separator + b
  {
    assert [a, b][1..] == [b];
  }

  function Holders(n: nat): seq<string> { seq(n, _ => "?") }

  function TestText(t: Token): string
    requires IsTest(t)
  {
    match t
    case LikeTest(col) => col + " LIKE " + "?" + " ESCAPE '\\'"
    case EqualTest(col) => col + " = " + "?"
    case InTest(col, n) => col + " IN (" + Join(Holders(n), ",") + ")"
    case NumberTest(col, n) => col + " = " + ['0' + n as char]
    case FavoriteTest => "EXISTS (SELECT 1 FROM favorites " + "WHERE favorites.node_id" + " = proxy_nodes.id)"
  }

  ghost function TestTexts(tests: seq<Token>): seq<string>
    requires forall t | t in tests :: IsTest(t)
  {
    seq(|tests|, i requires 0 <= i < |tests| => TestText(tests[i]))
  }

  lemma TestTextsAppend(tests: seq<Token>, t: Token)
    requires (forall x | x in tests :: IsTest(x)) && IsTest(t)
    ensures TestTexts(tests + [t]) == TestTexts(tests) + [TestText(t)]
  {
  }

  ghost function ClauseText(c: Clause): string
    requires Proper(c)
  {
    match c
    case Test(t) => TestText(t)
    case Group(ts) => "(" + Join(TestTexts(ts), " OR ") + ")"
  }

  ghost function ClauseTexts(cs: seq<Clause>): seq<string>
    requires forall c | c in cs :: Proper(c)
  {
    seq(|cs|, i requires 0 <= i < |cs| => ClauseText(cs[i]))
  }

  ghost function WhereText(cs: seq<Clause>): string
    requires forall c | c in cs :: Proper(c)
  {
    if cs == [] then "" else " WHERE " + Join(ClauseTexts(cs), " AND ")
  }

  /** How many placeholders a text holds. */
  function Marks(text: string): nat {
    if text == [] then 0 else (if text[0] == '?' then 1 else 0) + Marks(text[1..])
  }

  lemma {:induction false} MarksConcat(a: string, b: string)
    ensures Marks(a + b) == Marks(a) + Marks(b)
  {
    if a == [] {
      assert a + b == b;
    } else {
      assert (a + b)[1..] == a[1..] + b;
      MarksConcat(a[1..], b);
    }
  }

  lemma {:induction false} NoMarks(text: string)
    requires '?' !in text
    ensures Marks(text) == 0
  {
    if text != [] {
      NoMarks(text[1..]);
    }
  }

  ghost function Total(parts: seq<string>): nat {
    if parts == [] then 0 else Marks(parts[0]) + Total(parts[1..])
  }

  lemma {:induction false} MarksJoin(parts: seq<string>, separator: string)
    requires '?' !in separator
    ensures Marks(Join(parts, separator)) == Total(parts)
  {
    if |parts| == 1 {
      assert parts[1..] == [];
    } else if |parts| > 1 {
      MarksJoin(parts[1..], separator);
      NoMarks(separator);
      MarksConcat(parts[0] + separator, Join(parts[1..], separator));
      MarksConcat(parts[0], separator);
    }
  }

  lemma {:induction false} TotalHolders(n: nat)
    ensures Total(Holders(n)) == n
  {
    if n > 0 {
      assert Holders(n)[1..] == Holders(n - 1);
      TotalHolders(n - 1);
      assert Marks("?") == 1 by { assert "?"[1..] == []; }
    }
  }

  lemma NameHasNoMark(col: string)
    requires IsName(col)
    ensures '?' !in col
  {
  }

  lemma MarksAround(before: string, middle: string, after: string)
    requires '?' !in before && '?' !in after
    ensures Marks(before + middle + after) == Marks(middle)
  {
    NoMarks(before);
    NoMarks(after);
    MarksConcat(before + middle, after);
    MarksConcat(before, middle);
  }

  lemma LikeMarks(col: string)
    requires IsName(col)
    ensures Marks(TestText(LikeTest(col))) == 1
  {
    NameHasNoMark(col);
    MarksAround(col + " LIKE ", "?", " ESCAPE '\\'");
    assert "?"[1..] == [];
  }

  lemma EqualMarks(col: string)
    requires IsName(col)
    ensures Marks(TestText(EqualTest(col))) == 1
  {
    NameHasNoMark(col);
    MarksAround(col + " = ", "?", []);
    assert col + " = " + "?" + [] == col + " = " + "?";
    assert "?"[1..] == [];
  }

  lemma InMarks(col: string, n: nat)
    requires IsName(col) && n > 0
    ensures Marks(TestText(InTest(col, n))) == n
  {
    NameHasNoMark(col);
    MarksJoin(Holders(n), ",");
    TotalHolders(n);
    MarksAround(col + " IN (", Join(Holders(n), ","), ")");
  }

  lemma FavoriteTextPieces()
    ensures '?' !in "EXISTS (SELECT 1 FROM favorites "
    ensures '?' !in "WHERE favorites.node_id"
    ensures '?' !in " = proxy_nodes.id)"
  {
  }

  lemma FavoriteMarks(t: Token)
    requires t == FavoriteTest
    ensures Marks(TestText(t)) == 0
  {
    FavoriteTextPieces();
    NoMarks(TestText(t));
  }

  lemma NumberMarks(col: string, n: nat)
    requires IsName(col) && n <= 9
    ensures Marks(TestText(NumberTest(col, n))) == 0
  {
    NameHasNoMark(col);
    NoMarks(TestText(NumberTest(col, n)));
  }

  lemma TestMarks(t: Token)
    requires IsTest(t)
    ensures Marks(TestText(t)) == Arity(t)
  {
    match t
    case LikeTest(col) => LikeMarks(col);
    case EqualTest(col) => EqualMarks(col);
    case InTest(col, n) => InMarks(col, n);
    case NumberTest(col, n) => NumberMarks(col, n);
    case FavoriteTest => FavoriteMarks(t);
  }

  lemma {:induction false} TestTextsMarks(tests: seq<Token>)
    requires forall t | t in tests :: IsTest(t)
    ensures Total(TestTexts(tests)) == Need(tests)
  {
    if tests != [] {
      TestMarks(tests[0]);
      assert TestTexts(tests)[1..] == TestTexts(tests[1..]);
      TestTextsMarks(tests[1..]);
    }
  }

  lemma ClauseMarks(c: Clause)
    requires Proper(c)
    ensures Marks(ClauseText(c)) == ClauseNeed(c)
  {
    match c
    case Test(t) => TestMarks(t);
    case Group(ts) =>
      TestTextsMarks(ts);
      MarksJoin(TestTexts(ts), " OR ");
      MarksAround("(", Join(TestTexts(ts), " OR "), ")");
  }

  lemma {:induction false} ClauseTextsMarks(cs: seq<Clause>)
    requires forall c | c in cs :: Proper(c)
    ensures Total(ClauseTexts(cs)) == ClausesNeed(cs)
  {
    if cs != [] {
      ClauseMarks(cs[0]);
      assert ClauseTexts(cs)[1..] == ClauseTexts(cs[1..]);
      ClauseTextsMarks(cs[1..]);
    }
  }

  /** One placeholder for each argument. */
  lemma WhereMarks(cs: seq<Clause>)
    requires forall c | c in cs :: Proper(c)
    ensures Marks(WhereText(cs)) == ClausesNeed(cs)
  {
    if cs != [] {
      ClauseTextsMarks(cs);
      MarksJoin(ClauseTexts(cs), " AND ");
      NoMarks(" WHERE ");
      MarksConcat(" WHERE ", Join(ClauseTexts(cs), " AND "));
    }
  }

  // ----- Reading the text --------------------------------------------------------------

  /** What a text is made of: words, numbers among them, quoted texts, and signs; spaces only part them. */
  datatype Lexeme = Word(text: string) | Quoted(text: string) | Sign(sign: char)

  predicate InWord(c: char) {
    'a' <= c <= 'z' || 'A' <= c <= 'Z' || '0' <= c <= '9' || c == '_' || c == '.'
  }

  function WordRun(s: string): (n: nat)
    ensures n <= |s|
    ensures s != [] && InWord(s[0]) ==> n > 0
  {
    if s == [] || !InWord(s[0]) then 0 else 1 + WordRun(s[1..])
  }

  function QuoteRun(s: string): (n: nat)
    ensures n <= |s|
  {
    if s == [] || s[0] == '\'' then 0 else 1 + QuoteRun(s[1..])
  }

  function Lex(s: string): seq<Lexeme>
    decreases |s|
  {
    if s == [] then []
    else if s[0] == ' ' then Lex(s[1..])
    else if InWord(s[0]) then [Word(s[..WordRun(s)])] + Lex(s[WordRun(s)..])
    else if s[0] == '\'' && 1 + QuoteRun(s[1..]) < |s| then
      [Quoted(s[1..1 + QuoteRun(s[1..])])] + Lex(s[2 + QuoteRun(s[1..])..])
    else [Sign(s[0])] + Lex(s[1..])
  }

  const LIKE_PHRASE := [Word("LIKE"), Sign('?'), Word("ESCAPE"), Quoted("\\")]

  const IN_PHRASE := [Word("IN"), Sign('(')]

  const FAVORITE_PHRASE := [Word("EXISTS"), Sign('('), Word("SELECT"), Word("1"), Word("FROM"), Word("favorites"), Word("WHERE"),
                            Word("favorites.node_id"), Sign('='), Word("proxy_nodes.id"), Sign(')')]

  /** How many placeholders a list up to its closing parenthesis holds; 0 when it is no such list. */
  function Placeholders(ls: seq<Lexeme>): (n: nat)
    ensures 2 * n <= |ls|
  {
    if |ls| < 2 || ls[0] != Sign('?') then 0
    else if ls[1] == Sign(')') then 1
    else if ls[1] == Sign(',') && Placeholders(ls[2..]) > 0 then 1 + Placeholders(ls[2..])
    else 0
  }

  /** The test or combining word a text begins with, and how many lexemes spell it. */
  function Phrase(ls: seq<Lexeme>): (r: Option<(Token, nat)>)
    ensures r.Some? ==> 0 < r.value.1 <= |ls|
  {
    if ls == [] then None
    else if ls[0] == Sign('(') then Some((Open, 1))
    else if ls[0] == Sign(')') then Some((Close, 1))
    else if ls[0] == Word("AND") then Some((And, 1))
    else if ls[0] == Word("OR") then Some((Or, 1))
    else if FAVORITE_PHRASE <= ls then Some((FavoriteTest, |FAVORITE_PHRASE|))
    else if !ls[0].Word? then None
    else ColumnPhrase(ls[0].text, ls[1..])
  }

  /** A column's name is followed by a comparison: with a placeholder, a digit, a pattern or a list. */
  function ColumnPhrase(col: string, ls: seq<Lexeme>): (r: Option<(Token, nat)>)
    ensures r.Some? ==> 0 < r.value.1 <= |ls| + 1
  {
    if LIKE_PHRASE <= ls then Some((LikeTest(col), 1 + |LIKE_PHRASE|))
    else if IN_PHRASE <= ls then
      var n := Placeholders(ls[2..]);
      if n == 0 then None else Some((InTest(col, n), 3 + 2 * n))
    else if |ls| < 2 || ls[0] != Sign('=') then None
    else if ls[1] == Sign('?') then Some((EqualTest(col), 3))
    else if ls[1].Word? && |ls[1].text| == 1 && '0' <= ls[1].text[0] <= '9' then
      Some((NumberTest(col, (ls[1].text[0] - '0') as nat), 3))
    else None
  }

  function Before(t: Token, more: Option<seq<Token>>): Option<seq<Token>> {
    if more.Some? then Some([t] + more.value) else None
  }

  function Tokenise(ls: seq<Lexeme>): Option<seq<Token>>
    decreases |ls|
  {
    if ls == [] then Some([])
    else
      match Phrase(ls)
      case None => None
      case Some((t, n)) => Before(t, Tokenise(ls[n..]))
  }

  /**
   What the database answers for a row: the rows are not narrowed by an empty text, else WHERE and an
   expression with every placeholder bound to its argument. None is a text or a binding it rejects.
   */
  ghost function ReadText(row: Row, text: string, args: seq<string>): Option<bool> {
    var ls := Lex(text);
    if ls == [] then if args == [] then Some(true) else None
    else if ls[0] != Word("WHERE") then None
    else
      match Tokenise(ls[1..])
      case None => None
      case Some(ts) => Answer(row, ts, args)
  }

  // ----- The text built is read as the tokens it stands for -----------------------------

  predicate Continues(s: string) {
    s != [] && InWord(s[0])
  }

  predicate IsWordText(s: string) {
    s != [] && forall c | c in s :: InWord(c)
  }

  lemma {:induction false} WordRunStops(word: string, rest: string)
    requires (forall c | c in word :: InWord(c)) && !Continues(rest)
    ensures WordRun(word + rest) == |word|
  {
    if word == [] {
      assert word + rest == rest;
    } else {
      assert (word + rest)[1..] == word[1..] + rest;
      WordRunStops(word[1..], rest);
    }
  }

  lemma LexSpace(rest: string)
    ensures Lex(" " + rest) == Lex(rest)
  {
    assert (" " + rest)[1..] == rest;
  }

  lemma LexSign(c: char, rest: string)
    requires !InWord(c) && c != ' ' && c != '\''
    ensures Lex([c] + rest) == [Sign(c)] + Lex(rest)
  {
    assert ([c] + rest)[1..] == rest;
  }

  lemma LexWord(word: string, rest: string)
    requires IsWordText(word) && !Continues(rest)
    ensures Lex(word + rest) == [Word(word)] + Lex(rest)
  {
    WordRunStops(word, rest);
    assert (word + rest)[..|word|] == word && (word + rest)[|word|..] == rest;
    assert InWord((word + rest)[0]);
  }

  lemma LexSpacedWord(word: string, rest: string)
    requires IsWordText(word) && !Continues(rest)
    ensures Lex(" " + (word + rest)) == [Word(word)] + Lex(rest)
  {
    LexSpace(word + rest);
    LexWord(word, rest);
  }

  lemma LexBackslash(rest: string)
    ensures Lex("'\\'" + rest) == [Quoted("\\")] + Lex(rest)
  {
    var s := "'\\'" + rest;
    assert s[1..] == "\\'" + rest && s[1..][1..] == "'" + rest;
    assert QuoteRun(s[1..]) == 1;
    assert s[1..2] == "\\" && s[3..] == rest;
  }

  /** The rest of a list of placeholders, up to its closing parenthesis. */
  function ListLexemes(n: nat): seq<Lexeme> {
    if n <= 1 then [Sign('?'), Sign(')')] else [Sign('?'), Sign(',')] + ListLexemes(n - 1)
  }

  function Lexemes(t: Token): seq<Lexeme>
    requires IsTest(t)
  {
    match t
    case LikeTest(col) => [Word(col)] + LIKE_PHRASE
    case EqualTest(col) => [Word(col), Sign('='), Sign('?')]
    case InTest(col, n) => [Word(col)] + IN_PHRASE + ListLexemes(n)
    case NumberTest(col, n) => [Word(col), Sign('='), Word(['0' + n as char])]
    case FavoriteTest => FAVORITE_PHRASE
  }

  lemma Chain2(x: Lexeme, y: Lexeme, l0: seq<Lexeme>, l1: seq<Lexeme>, l2: seq<Lexeme>)
    requires l0 == [x] + l1 && l1 == [y] + l2
    ensures l0 == [x, y] + l2
  {
  }

  lemma Chain3(x: Lexeme, y: Lexeme, z: Lexeme, l0: seq<Lexeme>, l1: seq<Lexeme>, l2: seq<Lexeme>, l3: seq<Lexeme>)
    requires l0 == [x] + l1 && l1 == [y] + l2 && l2 == [z] + l3
    ensures l0 == [x, y, z] + l3
  {
  }

  lemma Chain4(x: Lexeme, y: Lexeme, z: Lexeme, u: Lexeme,
               l0: seq<Lexeme>, l1: seq<Lexeme>, l2: seq<Lexeme>, l3: seq<Lexeme>, l4: seq<Lexeme>)
    requires l0 == [x] + l1 && l1 == [y] + l2 && l2 == [z] + l3 && l3 == [u] + l4
    ensures l0 == [x, y, z, u] + l4
  {
  }

  lemma WordThenSpace(word: string, rest: string)
    requires IsWordText(word)
    ensures Lex(word + (" " + rest)) == [Word(word)] + Lex(rest)
  {
    LexSpace(rest);
    LexWord(word, " " + rest);
  }

  lemma SignThenSpace(c: char, rest: string)
    requires !InWord(c) && c != ' ' && c != '\''
    ensures Lex([c] + (" " + rest)) == [Sign(c)] + Lex(rest)
  {
    LexSpace(rest);
    LexSign(c, " " + rest);
  }

  lemma LikeWords()
    ensures IsWordText("LIKE") && IsWordText("ESCAPE")
  {
  }

  lemma LikeSpelled(col: string, rest: string)
    requires IsName(col)
    ensures TestText(LikeTest(col)) + rest
            == col + (" " + ("LIKE" + (" " + (['?'] + (" " + ("ESCAPE" + (" " + ("'\\'" + rest))))))))
  {
  }

  lemma LexLike(col: string, rest: string)
    requires IsName(col)
    ensures Lex(TestText(LikeTest(col)) + rest) == Lexemes(LikeTest(col)) + Lex(rest)
  {
    LikeSpelled(col, rest);
    LikeWords();
    LikeShape(col, "LIKE", "ESCAPE", "'\\'" + rest);
    LexBackslash(rest);
    LikeLexemes(col, Lex(rest));
  }

  lemma LikeShape(col: string, like: string, escape: string, rest: string)
    requires IsWordText(col) && IsWordText(like) && IsWordText(escape)
    ensures Lex(col + (" " + (like + (" " + (['?'] + (" " + (escape + (" " + rest))))))))
            == [Word(col), Word(like), Sign('?'), Word(escape)] + Lex(rest)
  {
    var s3 := escape + (" " + rest);
    var s2 := ['?'] + (" " + s3);
    var s1 := like + (" " + s2);
    WordThenSpace(escape, rest);
    SignThenSpace('?', s3);
    WordThenSpace(like, s2);
    WordThenSpace(col, s1);
    Chain4(Word(col), Word(like), Sign('?'), Word(escape), Lex(col + (" " + s1)), Lex(s1), Lex(s2), Lex(s3), Lex(rest));
  }

  lemma LikeLexemes(col: string, rest: seq<Lexeme>)
    requires IsName(col)
    ensures [Word(col), Word("LIKE"), Sign('?'), Word("ESCAPE")] + ([Quoted("\\")] + rest) == Lexemes(LikeTest(col)) + rest
  {
  }

  lemma EqualSignSpelled(rest: string)
    ensures " = " + rest == " " + (['='] + (" " + rest))
  {
  }

  lemma LexEqualSign(rest: string)
    ensures Lex(" = " + rest) == [Sign('=')] + Lex(rest)
  {
    EqualSignSpelled(rest);
    SignThenSpace('=', rest);
    LexSpace(['='] + (" " + rest));
  }

  lemma WordEquals(word: string, equals: string, rest: string)
    requires IsWordText(word) && equals == " = "
    ensures Lex(word + (equals + rest)) == [Word(word), Sign('=')] + Lex(rest)
  {
    LexEqualSign(rest);
    LexWord(word, equals + rest);
    Chain2(Word(word), Sign('='), Lex(word + (equals + rest)), Lex(equals + rest), Lex(rest));
  }

  lemma LexEqual(col: string, rest: string)
    requires IsName(col)
    ensures Lex(TestText(EqualTest(col)) + rest) == Lexemes(EqualTest(col)) + Lex(rest)
  {
    EqualSpelled(col, rest);
    LexSign('?', rest);
    WordEquals(col, " = ", ['?'] + rest);
    ThirdLexeme(Word(col), Sign('='), Sign('?'), Lex(rest));
  }

  lemma ThirdLexeme(x: Lexeme, y: Lexeme, z: Lexeme, rest: seq<Lexeme>)
    ensures [x, y] + ([z] + rest) == [x, y, z] + rest
  {
  }

  lemma EqualSpelled(col: string, rest: string)
    requires IsName(col)
    ensures TestText(EqualTest(col)) + rest == col + (" = " + (['?'] + rest))
  {
  }

  lemma NumberSpelled(col: string, n: nat, rest: string)
    requires IsName(col) && n <= 9
    ensures TestText(NumberTest(col, n)) + rest == col + (" = " + (['0' + n as char] + rest))
  {
  }

  lemma LexNumber(col: string, n: nat, rest: string)
    requires IsName(col) && n <= 9 && !Continues(rest)
    ensures Lex(TestText(NumberTest(col, n)) + rest) == Lexemes(NumberTest(col, n)) + Lex(rest)
  {
    var digit := ['0' + n as char];
    NumberSpelled(col, n, rest);
    LexWord(digit, rest);
    WordEquals(col, " = ", digit + rest);
    ThirdLexeme(Word(col), Sign('='), Word(digit), Lex(rest));
  }

  lemma MoreHolders(n: nat, rest: string)
    requires n > 1
    ensures Join(Holders(n), ",") + (")" + rest) == ['?'] + ([','] + (Join(Holders(n - 1), ",") + (")" + rest)))
  {
    assert Holders(n)[1..] == Holders(n - 1);
    assert Join(Holders(n), ",") == "?" + "," + Join(Holders(n - 1), ",");
  }

  lemma LexTwoSigns(a: char, b: char, rest: string)
    requires !InWord(a) && a != ' ' && a != '\'' && !InWord(b) && b != ' ' && b != '\''
    ensures Lex([a] + ([b] + rest)) == [Sign(a), Sign(b)] + Lex(rest)
  {
    LexSign(b, rest);
    LexSign(a, [b] + rest);
    Chain2(Sign(a), Sign(b), Lex([a] + ([b] + rest)), Lex([b] + rest), Lex(rest));
  }

  lemma {:induction false} LexHolders(n: nat, rest: string)
    requires n > 0
    ensures Lex(Join(Holders(n), ",") + (")" + rest)) == ListLexemes(n) + Lex(rest)
  {
    if n == 1 {
      LexTwoSigns('?', ')', rest);
      assert Join(Holders(1), ",") + (")" + rest) == ['?'] + ([')'] + rest);
    } else {
      LexHolders(n - 1, rest);
      LexTwoSigns('?', ',', Join(Holders(n - 1), ",") + (")" + rest));
      MoreHolders(n, rest);
    }
  }

  lemma InSpelled(col: string, n: nat, rest: string)
    requires IsName(col) && n > 0
    ensures TestText(InTest(col, n)) + rest == col + (" " + ("IN" + (" " + (['('] + (Join(Holders(n), ",") + (")" + rest))))))
  {
  }

  lemma InShape(col: string, word: string, rest: string)
    requires IsWordText(col) && IsWordText(word)
    ensures Lex(col + (" " + (word + (" " + (['('] + rest))))) == [Word(col), Word(word), Sign('(')] + Lex(rest)
  {
    var s2 := ['('] + rest;
    var s1 := word + (" " + s2);
    LexSign('(', rest);
    WordThenSpace(word, s2);
    WordThenSpace(col, s1);
    Chain3(Word(col), Word(word), Sign('('), Lex(col + (" " + s1)), Lex(s1), Lex(s2), Lex(rest));
  }

  lemma InLexemes(col: string, n: nat, rest: seq<Lexeme>)
    requires IsName(col) && n > 0
    ensures [Word(col), Word("IN"), Sign('(')] + (ListLexemes(n) + rest) == Lexemes(InTest(col, n)) + rest
  {
  }

  lemma InWordText()
    ensures IsWordText("IN")
  {
  }

  lemma LexIn(col: string, n: nat, rest: string)
    requires IsName(col) && n > 0
    ensures Lex(TestText(InTest(col, n)) + rest) == Lexemes(InTest(col, n)) + Lex(rest)
  {
    InSpelled(col, n, rest);
    InWordText();
    InShape(col, "IN", Join(Holders(n), ",") + (")" + rest));
    LexHolders(n, rest);
    InLexemes(col, n, Lex(rest));
  }

  lemma TwoWords(a: string, b: string, rest: string)
    requires IsWordText(a) && IsWordText(b) && !Continues(rest)
    ensures Lex(a + (" " + (b + rest))) == [Word(a), Word(b)] + Lex(rest)
  {
    LexSpacedWord(b, rest);
    LexWord(a, " " + (b + rest));
    Chain2(Word(a), Word(b), Lex(a + (" " + (b + rest))), Lex(" " + (b + rest)), Lex(rest));
  }

  lemma FavoriteEndSpelled(rest: string)
    ensures IsWordText("proxy_nodes.id")
    ensures " = proxy_nodes.id)" + rest == " = " + ("proxy_nodes.id" + ([')'] + rest))
  {
  }

  lemma EqualsWord(equals: string, word: string, c: char, rest: string)
    requires equals == " = " && IsWordText(word) && !InWord(c) && c != ' ' && c != '\''
    ensures Lex(equals + (word + ([c] + rest))) == [Sign('='), Word(word), Sign(c)] + Lex(rest)
  {
    var s2 := [c] + rest;
    var s1 := word + s2;
    LexSign(c, rest);
    LexWord(word, s2);
    LexEqualSign(s1);
    Chain3(Sign('='), Word(word), Sign(c), Lex(equals + s1), Lex(s1), Lex(s2), Lex(rest));
  }

  lemma LexFavoriteEnd(rest: string)
    ensures Lex(" = proxy_nodes.id)" + rest) == [Sign('='), Word("proxy_nodes.id"), Sign(')')] + Lex(rest)
  {
    FavoriteEndSpelled(rest);
    EqualsWord(" = ", "proxy_nodes.id", ')', rest);
  }

  lemma FavoriteWords()
    ensures IsWordText("WHERE") && IsWordText("favorites.node_id")
  {
  }

  lemma FavoriteMiddleSpelled(rest: string)
    ensures "WHERE favorites.node_id" + rest == "WHERE" + (" " + ("favorites.node_id" + rest))
  {
  }

  lemma LexFavoriteMiddle(rest: string)
    requires !Continues(rest)
    ensures Lex("WHERE favorites.node_id" + rest) == [Word("WHERE"), Word("favorites.node_id")] + Lex(rest)
  {
    FavoriteWords();
    TwoWords("WHERE", "favorites.node_id", rest);
    FavoriteMiddleSpelled(rest);
  }

  lemma FavoriteStartWords()
    ensures IsWordText("EXISTS") && IsWordText("SELECT") && IsWordText("1") && IsWordText("FROM") && IsWordText("favorites")
  {
  }

  lemma FavoriteStartSpelled(rest: string)
    ensures "EXISTS (SELECT 1 FROM favorites " + rest
            == "EXISTS" + (" " + (['('] + ("SELECT" + (" " + ("1" + (" " + ("FROM" + (" " + ("favorites" + (" " + rest))))))))))
  {
  }

  lemma FourWords(a: string, b: string, c: string, d: string, rest: string)
    requires IsWordText(a) && IsWordText(b) && IsWordText(c) && IsWordText(d)
    ensures Lex(a + (" " + (b + (" " + (c + (" " + (d + (" " + rest)))))))) == [Word(a), Word(b), Word(c), Word(d)] + Lex(rest)
  {
    var s3 := d + (" " + rest);
    var s2 := c + (" " + s3);
    var s1 := b + (" " + s2);
    WordThenSpace(d, rest);
    WordThenSpace(c, s3);
    WordThenSpace(b, s2);
    WordThenSpace(a, s1);
    Chain4(Word(a), Word(b), Word(c), Word(d), Lex(a + (" " + s1)), Lex(s1), Lex(s2), Lex(s3), Lex(rest));
  }

  lemma WordParenthesis(word: string, rest: string)
    requires IsWordText(word)
    ensures Lex(word + (" " + (['('] + rest))) == [Word(word), Sign('(')] + Lex(rest)
  {
    LexSign('(', rest);
    WordThenSpace(word, ['('] + rest);
    Chain2(Word(word), Sign('('), Lex(word + (" " + (['('] + rest))), Lex(['('] + rest), Lex(rest));
  }

  lemma LexFavoriteStart(rest: string)
    ensures Lex("EXISTS (SELECT 1 FROM favorites " + rest)
            == [Word("EXISTS"), Sign('('), Word("SELECT"), Word("1"), Word("FROM"), Word("favorites")] + Lex(rest)
  {
    FavoriteStartWords();
    FavoriteStartSpelled(rest);
    FourWords("SELECT", "1", "FROM", "favorites", rest);
    WordParenthesis("EXISTS", "SELECT" + (" " + ("1" + (" " + ("FROM" + (" " + ("favorites" + (" " + rest))))))));
    StartLexemes(Lex(rest));
  }

  lemma StartLexemes(rest: seq<Lexeme>)
    ensures [Word("EXISTS"), Sign('(')] + ([Word("SELECT"), Word("1"), Word("FROM"), Word("favorites")] + rest)
            == [Word("EXISTS"), Sign('('), Word("SELECT"), Word("1"), Word("FROM"), Word("favorites")] + rest
  {
  }

  lemma PiecesAssociate<T>(a: seq<T>, b: seq<T>, c: seq<T>, rest: seq<T>)
    ensures a + b + c + rest == a + (b + (c + rest))
  {
  }

  lemma FavoriteEndContinues(rest: string)
    ensures !Continues(" = proxy_nodes.id)" + rest)
  {
  }

  lemma LexFavorite(rest: string)
    ensures Lex(TestText(FavoriteTest) + rest) == FAVORITE_PHRASE + Lex(rest)
  {
    LexFavoriteEnd(rest);
    FavoriteEndContinues(rest);
    LexFavoriteMiddle(" = proxy_nodes.id)" + rest);
    LexFavoriteStart("WHERE favorites.node_id" + (" = proxy_nodes.id)" + rest));
    PiecesAssociate("EXISTS (SELECT 1 FROM favorites ", "WHERE favorites.node_id", " = proxy_nodes.id)", rest);
    FavoritePhraseSpelled(Lex(rest));
  }

  lemma FavoritePhraseSpelled(rest: seq<Lexeme>)
    ensures FAVORITE_PHRASE + rest
            == [Word("EXISTS"), Sign('('), Word("SELECT"), Word("1"), Word("FROM"), Word("favorites")]
               + ([Word("WHERE"), Word("favorites.node_id")] + ([Sign('='), Word("proxy_nodes.id"), Sign(')')] + rest))
  {
  }

  lemma LexTest(t: Token, rest: string)
    requires IsTest(t) && !Continues(rest)
    ensures Lex(TestText(t) + rest) == Lexemes(t) + Lex(rest)
  {
    match t
    case LikeTest(col) => LexLike(col, rest);
    case EqualTest(col) => LexEqual(col, rest);
    case InTest(col, n) => LexIn(col, n, rest);
    case NumberTest(col, n) => LexNumber(col, n, rest);
    case FavoriteTest => LexFavorite(rest);
  }

  lemma {:induction false} PlaceholdersOf(n: nat, rest: seq<Lexeme>)
    requires n > 0
    ensures |ListLexemes(n)| == 2 * n && Placeholders(ListLexemes(n) + rest) == n
  {
    if n > 1 {
      PlaceholdersOf(n - 1, rest);
      assert (ListLexemes(n) + rest)[2..] == ListLexemes(n - 1) + rest;
    }
  }

  lemma InPhrase(col: string, n: nat, rest: seq<Lexeme>)
    requires n > 0
    ensures ColumnPhrase(col, IN_PHRASE + ListLexemes(n) + rest) == Some((InTest(col, n), 3 + 2 * n))
  {
    var ls := IN_PHRASE + ListLexemes(n) + rest;
    PlaceholdersOf(n, rest);
    assert ls[0] == Word("IN") && ls[1] == Sign('(');
    assert ls[2..] == ListLexemes(n) + rest;
  }

  lemma NamesAreNoKeywords(col: string)
    requires IsName(col)
    ensures col != "AND" && col != "OR" && col != "EXISTS"
  {
    var and, or, exists_ := "AND", "OR", "EXISTS";
    assert and[0] == 'A' && or[0] == 'O' && exists_[0] == 'E';
    assert col[0] in col;
  }

  lemma PhraseTest(t: Token, rest: seq<Lexeme>)
    requires IsTest(t)
    ensures Phrase(Lexemes(t) + rest) == Some((t, |Lexemes(t)|))
  {
    if t != FavoriteTest {
      ColumnPhraseTest(t, rest);
      NamesAreNoKeywords(t.col);
    }
  }

  lemma ColumnPhraseTest(t: Token, rest: seq<Lexeme>)
    requires IsTest(t) && t != FavoriteTest
    ensures Lexemes(t)[0] == Word(t.col)
    ensures ColumnPhrase(t.col, (Lexemes(t) + rest)[1..]) == Some((t, |Lexemes(t)|))
  {
    var ls := (Lexemes(t) + rest)[1..];
    if t.InTest? {
      PlaceholdersOf(t.count, rest);
      InPhrase(t.col, t.count, rest);
      assert ls == IN_PHRASE + ListLexemes(t.count) + rest;
    } else if t.LikeTest? {
      assert ls == LIKE_PHRASE + rest;
    } else {
      assert ls[0] == Sign('=');
    }
  }

  /** The tokens a text spells. */
  function Scan(s: string): Option<seq<Token>> {
    Tokenise(Lex(s))
  }

  lemma TokeniseNext(t: Token, phrase: seq<Lexeme>, rest: seq<Lexeme>)
    requires phrase != [] && Phrase(phrase + rest) == Some((t, |phrase|))
    ensures Tokenise(phrase + rest) == Before(t, Tokenise(rest))
  {
    assert (phrase + rest)[|phrase|..] == rest;
  }

  lemma ScanTest(t: Token, rest: string)
    requires IsTest(t) && !Continues(rest)
    ensures Scan(TestText(t) + rest) == Before(t, Scan(rest))
  {
    LexTest(t, rest);
    PhraseTest(t, Lex(rest));
    TokeniseNext(t, Lexemes(t), Lex(rest));
  }

  lemma ScanOr(rest: string)
    ensures Scan(" OR " + rest) == Before(Or, Scan(rest))
  {
    OrSpelled(rest);
    WordThenSpace("OR", rest);
    LexSpace("OR" + (" " + rest));
    TokeniseNext(Or, [Word("OR")], Lex(rest));
  }

  lemma OrSpelled(rest: string)
    ensures " OR " + rest == " " + ("OR" + (" " + rest)) && IsWordText("OR")
  {
  }

  lemma ScanAnd(rest: string)
    ensures Scan(" AND " + rest) == Before(And, Scan(rest))
  {
    AndSpelled(rest);
    WordThenSpace("AND", rest);
    LexSpace("AND" + (" " + rest));
    TokeniseNext(And, [Word("AND")], Lex(rest));
  }

  lemma AndSpelled(rest: string)
    ensures " AND " + rest == " " + ("AND" + (" " + rest)) && IsWordText("AND")
  {
  }

  lemma ScanParentheses(rest: string)
    ensures Scan("(" + rest) == Before(Open, Scan(rest)) && Scan(")" + rest) == Before(Close, Scan(rest))
  {
    LexSign('(', rest);
    LexSign(')', rest);
    TokeniseNext(Open, [Sign('(')], Lex(rest));
    TokeniseNext(Close, [Sign(')')], Lex(rest));
  }

  function InFront(ts: seq<Token>, more: Option<seq<Token>>): Option<seq<Token>> {
    if more.Some? then Some(ts + more.value) else None
  }

  lemma InFrontConcat(a: seq<Token>, b: seq<Token>, more: Option<seq<Token>>)
    ensures InFront(a, InFront(b, more)) == InFront(a + b, more)
  {
    if more.Some? {
      assert a + (b + more.value) == (a + b) + more.value;
    }
  }

  lemma MoreTexts(tests: seq<Token>, rest: string)
    requires |tests| > 1 && forall t | t in tests :: IsTest(t)
    ensures Join(TestTexts(tests), " OR ") + rest == TestText(tests[0]) + (" OR " + (Join(TestTexts(tests[1..]), " OR ") + rest))
  {
    assert TestTexts(tests)[1..] == TestTexts(tests[1..]);
  }

  lemma ScanTestOr(t: Token, text: string, tail: string)
    requires IsTest(t) && text == TestText(t)
    ensures Scan(text + (" OR " + tail)) == InFront([t, Or], Scan(tail))
  {
    ScanTest(t, " OR " + tail);
    ScanOr(tail);
    InFrontConcat([t], [Or], Scan(tail));
    assert [t] + [Or] == [t, Or];
  }

  lemma {:induction false} ScanAlternatives(tests: seq<Token>, rest: string)
    requires tests != [] && (forall t | t in tests :: IsTest(t)) && !Continues(rest)
    ensures Scan(Join(TestTexts(tests), " OR ") + rest) == InFront(Alternatives(tests), Scan(rest))
  {
    if |tests| == 1 {
      assert TestTexts(tests) == [TestText(tests[0])] && Alternatives(tests) == [tests[0]];
      ScanTest(tests[0], rest);
    } else {
      MoreTexts(tests, rest);
      ScanTestOr(tests[0], TestText(tests[0]), Join(TestTexts(tests[1..]), " OR ") + rest);
      ScanAlternatives(tests[1..], rest);
      InFrontConcat([tests[0], Or], Alternatives(tests[1..]), Scan(rest));
    }
  }

  lemma ScanClause(c: Clause, rest: string)
    requires Proper(c) && !Continues(rest)
    ensures Scan(ClauseText(c) + rest) == InFront(Tokens(c), Scan(rest))
  {
    match c
    case Test(t) => ScanTest(t, rest);
    case Group(ts) =>
      var inner := Join(TestTexts(ts), " OR ") + (")" + rest);
      assert ClauseText(c) + rest == "(" + inner;
      ScanParentheses(inner);
      ScanAlternatives(ts, ")" + rest);
      ScanParentheses(rest);
      InFrontConcat(Alternatives(ts), [Close], Scan(rest));
      InFrontConcat([Open], Alternatives(ts) + [Close], Scan(rest));
      assert [Open] + (Alternatives(ts) + [Close]) == Tokens(c);
  }

  lemma {:induction false} ScanConjunction(cs: seq<Clause>)
    requires cs != [] && (forall c | c in cs :: Proper(c))
    ensures Scan(Join(ClauseTexts(cs), " AND ")) == Some(Conjunction(cs))
  {
    if |cs| == 1 {
      assert ClauseTexts(cs) == [ClauseText(cs[0])] && ClauseText(cs[0]) + [] == ClauseText(cs[0]);
      ScanClause(cs[0], []);
      assert Tokens(cs[0]) + [] == Tokens(cs[0]);
    } else {
      MoreClauses(cs);
      ScanClauseAnd(cs[0], ClauseText(cs[0]), Join(ClauseTexts(cs[1..]), " AND "));
      ScanConjunction(cs[1..]);
      PiecesMeet(Tokens(cs[0]), [And], Conjunction(cs[1..]));
    }
  }

  lemma PiecesMeet<T>(a: seq<T>, b: seq<T>, c: seq<T>)
    ensures a + (b + c) == a + b + c
  {
  }

  lemma MoreClauses(cs: seq<Clause>)
    requires |cs| > 1 && forall c | c in cs :: Proper(c)
    ensures Join(ClauseTexts(cs), " AND ") == ClauseText(cs[0]) + (" AND " + Join(ClauseTexts(cs[1..]), " AND "))
  {
    assert ClauseTexts(cs)[1..] == ClauseTexts(cs[1..]);
  }

  lemma AndBegins(tail: string)
    ensures !Continues(" AND " + tail)
  {
  }

  lemma ScanClauseAnd(c: Clause, text: string, tail: string)
    requires Proper(c) && text == ClauseText(c)
    ensures Scan(text + (" AND " + tail)) == InFront(Tokens(c), Before(And, Scan(tail)))
  {
    AndBegins(tail);
    ScanClause(c, " AND " + tail);
    ScanAnd(tail);
  }

  lemma LexWhere(where: string, body: string)
    requires where == " WHERE "
    ensures Lex(where + body) == [Word("WHERE")] + Lex(body)
  {
    WhereSpelled(where, body);
    WordThenSpace("WHERE", body);
    LexSpace("WHERE" + (" " + body));
  }

  lemma WhereSpelled(where: string, body: string)
    requires where == " WHERE "
    ensures where + body == " " + ("WHERE" + (" " + body)) && IsWordText("WHERE")
  {
  }

  lemma ReadAfterWhere(row: Row, text: string, ls: seq<Lexeme>, ts: seq<Token>, args: seq<string>)
    requires Lex(text) == [Word("WHERE")] + ls && Tokenise(ls) == Some(ts)
    ensures ReadText(row, text, args) == Answer(row, ts, args)
  {
    assert ([Word("WHERE")] + ls)[1..] == ls;
  }

  /** The text of a conjunction of clauses is read as that conjunction. */
  lemma WhereReads(row: Row, cs: seq<Clause>, args: seq<string>)
    requires cs != [] && (forall c | c in cs :: Proper(c)) && |args| == ClausesNeed(cs)
    ensures ReadText(row, " WHERE " + Join(ClauseTexts(cs), " AND "), args) == Some(AllHold(row, cs, args))
  {
    var body := Join(ClauseTexts(cs), " AND ");
    LexWhere(" WHERE ", body);
    ScanConjunction(cs);
    ReadAfterWhere(row, " WHERE " + body, Lex(body), Conjunction(cs), args);
    ConjunctionAnswers(row, cs, args);
  }

  // ----- The builder --------------------------------------------------------------------

  /** The tests so far answer a row as `finds` does. */
  ghost predicate TestsMean(tests: seq<Token>, args: seq<string>, finds: Row -> bool) {
    && (forall t | t in tests :: IsTest(t))
    && |args| == Need(tests)
    && forall row :: AnyHolds(row, tests, args) <==> finds(row)
  }

  lemma TestsMeanAppend(tests: seq<Token>, args: seq<string>, finds: Row -> bool, t: Token, own: seq<string>, findsAlso: Row -> bool)
    requires TestsMean(tests, args, finds) && IsTest(t) && |own| == Arity(t)
    requires forall row :: findsAlso(row) <==> finds(row) || Holds(row, t, own)
    ensures TestsMean(tests + [t], args + own, findsAlso)
  {
    forall row {
      AnyHoldsAppend(row, tests, args, t, own);
    }
    AnyHoldsAppend(Row(_ => "", _ => 0, false), tests, args, t, own);
  }

  ghost predicate FoundIn(columns: seq<string>, term: string, row: Row) {
    exists col | col in columns :: Occurs(term, row.cell(col))
  }

  ghost predicate FoundInOrById(term: string, row: Row) {
    FoundIn(SEARCH_COLUMNS, term, row) || (|term| <= |row.cell("id")| && EqualFold(term, row.cell("id")[..|term|]))
  }

  lemma SearchColumnsAreNamed()
    ensures forall col | col in SEARCH_COLUMNS :: IsName(col)
    ensures IsName("id")
  {
  }

  lemma OtherColumnsAreNamed()
    ensures IsName("country") && IsName("country_code") && IsName("ip_type") && IsName("status")
    ensures IsName("source_present") && IsName("liveness_failures")
  {
  }

  lemma SearchedColumns(col: string)
    ensures col in SEARCH_COLUMNS <==>
              col in {"ip_address", "remote_host", "host_name", "provider_identity", "country", "country_code", "location",
                      "owner", "as_name", "asn"}
  {
  }

  lemma TermFindsByColumn(countries: Countries, term: string, row: Row)
    ensures TermFinds(countries, term, row) <==> FoundInOrById(term, row) || row.cell("country_code") in countries.matching(term)
  {
    forall col
      ensures col in SEARCH_COLUMNS <==>
                col in {"ip_address", "remote_host", "host_name", "provider_identity", "country", "country_code", "location",
                        "owner", "as_name", "asn"}
    {
      SearchedColumns(col);
    }
  }

  /** The tests on the text columns: a substring of any of ten, or a prefix of the id. */
  method ColumnTests(term: string) returns (parts: seq<string>, args: seq<string>, ghost tests: seq<Token>)
    ensures TestsMean(tests, args, row => FoundInOrById(term, row)) && tests != []
    ensures parts == TestTexts(tests)
  {
    var pattern := "%" + Escape(term) + "%";
    SearchColumnsAreNamed();
    parts, args, tests := [], [], [];
    for i := 0 to |SEARCH_COLUMNS|
      invariant |tests| == i && TestsMean(tests, args, row => FoundIn(SEARCH_COLUMNS[..i], term, row))
      invariant parts == TestTexts(tests)
    {
      var col := SEARCH_COLUMNS[i];
      assert SEARCH_COLUMNS[..i + 1] == SEARCH_COLUMNS[..i] + [col];
      forall row: Row ensures Like(pattern, row.cell(col)) <==> Occurs(term, row.cell(col)) {
        LikeContains(term, row.cell(col));
      }
      TestsMeanAppend(tests, args, row => FoundIn(SEARCH_COLUMNS[..i], term, row), LikeTest(col), [pattern],
                      row => FoundIn(SEARCH_COLUMNS[..i + 1], term, row));
      parts := parts + [col + " LIKE " + "?" + " ESCAPE '\\'"];
      args := args + [pattern];
      tests := tests + [LikeTest(col)];
    }
    assert SEARCH_COLUMNS[..|SEARCH_COLUMNS|] == SEARCH_COLUMNS;
    forall row: Row
      ensures Like(Escape(term) + "%", row.cell("id")) <==> |term| <= |row.cell("id")| && EqualFold(term, row.cell("id")[..|term|])
    {
      LikePrefix(term, row.cell("id"));
    }
    TestsMeanAppend(tests, args, row => FoundIn(SEARCH_COLUMNS, term, row), LikeTest("id"), [Escape(term) + "%"],
                    row => FoundInOrById(term, row));
    parts := parts + ["id" + " LIKE " + "?" + " ESCAPE '\\'"];
    args := args + [Escape(term) + "%"];
    tests := tests + [LikeTest("id")];
  }

  lemma WithCodes(countries: Countries, term: string, tests: seq<Token>, args: seq<string>)
    requires TestsMean(tests, args, row => FoundInOrById(term, row))
    ensures var codes := countries.matching(term);
            var finds := row => TermFinds(countries, term, row);
            if codes == [] then TestsMean(tests, args, finds)
            else TestsMean(tests + [InTest("country_code", |codes|)], args + codes, finds)
                 && TestTexts(tests + [InTest("country_code", |codes|)])
                    == TestTexts(tests) + ["country_code" + " IN (" + Join(Holders(|codes|), ",") + ")"]
  {
    var codes := countries.matching(term);
    forall row: Row {
      TermFindsByColumn(countries, term, row);
    }
    if codes != [] {
      OtherColumnsAreNamed();
      var t := InTest("country_code", |codes|);
      TestsMeanAppend(tests, args, row => FoundInOrById(term, row), t, codes, row => TermFinds(countries, term, row));
      TestTextsAppend(tests, t);
    }
  }

  /** One term's alternatives, in parentheses: they find exactly the rows the term is meant to find. */
  method SearchClause(countries: Countries, term: string) returns (text: string, args: seq<string>, ghost tests: seq<Token>)
    ensures TestsMean(tests, args, row => TermFinds(countries, term, row)) && tests != []
    ensures text == ClauseText(Group(tests))
  {
    var parts;
    parts, args, tests := ColumnTests(term);
    var codes := countries.matching(term);
    WithCodes(countries, term, tests, args);
    if |codes| > 0 {
      var holders := [];
      ghost var all := args + codes;
      for i := 0 to |codes|
        invariant holders == Holders(i)
        invariant args + codes[i..] == all
      {
        holders := holders + ["?"];
        assert args + codes[i..] == (args + [codes[i]]) + codes[i + 1..];
        args := args + [codes[i]];
      }
      assert args + codes[|codes|..] == args;
      parts := parts + ["country_code" + " IN (" + Join(holders, ",") + ")"];
      tests := tests + [InTest("country_code", |codes|)];
    }
    text := "(" + Join(parts, " OR ") + ")";
  }

  /** The clauses so far keep a row exactly when `keeps` does. */
  ghost predicate ClausesMean(cs: seq<Clause>, args: seq<string>, keeps: Row -> bool) {
    && (forall c | c in cs :: Proper(c))
    && |args| == ClausesNeed(cs)
    && forall row :: AllHold(row, cs, args) <==> keeps(row)
  }

  lemma ClausesMeanAppend(cs: seq<Clause>, args: seq<string>, keeps: Row -> bool, c: Clause, own: seq<string>, keepsAlso: Row -> bool)
    requires ClausesMean(cs, args, keeps) && Proper(c) && |own| == ClauseNeed(c)
    requires forall row :: keepsAlso(row) <==> keeps(row) && ClauseHolds(row, c, own)
    ensures ClausesMean(cs + [c], args + own, keepsAlso)
  {
    forall row {
      AllHoldAppend(row, cs, args, c, own);
    }
    AllHoldAppend(Row(_ => "", _ => 0, false), cs, args, c, own);
  }

  lemma GroupMeans(tests: seq<Token>, args: seq<string>, finds: Row -> bool)
    requires TestsMean(tests, args, finds) && tests != []
    ensures Proper(Group(tests)) && |args| == ClauseNeed(Group(tests))
    ensures forall row :: ClauseHolds(row, Group(tests), args) <==> finds(row)
  {
  }

  lemma ClauseTextsAppend(cs: seq<Clause>, c: Clause)
    requires (forall x | x in cs :: Proper(x)) && Proper(c)
    ensures ClauseTexts(cs + [c]) == ClauseTexts(cs) + [ClauseText(c)]
  {
  }

  /** What is built so far: texts and arguments in step with clauses that keep the rows of `keeps`. */
  ghost predicate Built(parts: seq<string>, args: seq<string>, cs: seq<Clause>, keeps: Row -> bool) {
    ClausesMean(cs, args, keeps) && parts == ClauseTexts(cs)
  }

  lemma BuiltAppend(parts: seq<string>, args: seq<string>, cs: seq<Clause>, keeps: Row -> bool,
                    c: Clause, text: string, own: seq<string>, keepsAlso: Row -> bool)
    requires Built(parts, args, cs, keeps) && Proper(c) && |own| == ClauseNeed(c) && text == ClauseText(c)
    requires forall row :: keepsAlso(row) <==> keeps(row) && ClauseHolds(row, c, own)
    ensures Built(parts + [text], args + own, cs + [c], keepsAlso)
  {
    ClausesMeanAppend(cs, args, keeps, c, own, keepsAlso);
    ClauseTextsAppend(cs, c);
  }

  lemma BuiltSame(parts: seq<string>, args: seq<string>, cs: seq<Clause>, keeps: Row -> bool, keepsAlso: Row -> bool)
    requires Built(parts, args, cs, keeps)
    requires forall row :: keepsAlso(row) <==> keeps(row)
    ensures Built(parts, args, cs, keepsAlso)
  {
  }

  ghost predicate TypeAndStatusMatch(f: NodeFilter, row: Row) {
    && (f.ipType != "" ==> row.cell("ip_type") == f.ipType)
    && (f.status != "" ==> row.cell("status") == f.status)
  }

  ghost predicate PropertiesMatch(countries: Countries, f: NodeFilter, row: Row) {
    TypeAndStatusMatch(f, row) && (f.country != "" ==> CountryIs(countries, f.country, row))
  }

  type Finder = (string, Row) -> bool

  /** The rows of `base` that every term finds. */
  ghost function Narrowed(base: Row -> bool, finds: Finder, terms: seq<string>): Row -> bool {
    row => base(row) && forall term | term in terms :: finds(term, row)
  }

  method TypeAndStatusClauses(f: NodeFilter) returns (parts: seq<string>, args: seq<string>, ghost cs: seq<Clause>)
    ensures Built(parts, args, cs, row => TypeAndStatusMatch(f, row))
    ensures cs == [] <==> f.ipType == f.status == ""
  {
    parts, args, cs := [], [], [];
    OtherColumnsAreNamed();
    ghost var keeps: Row -> bool := row => true;
    if f.ipType != "" {
      ghost var keepsAlso: Row -> bool := (row: Row) => row.cell("ip_type") == f.ipType;
      BuiltAppend(parts, args, cs, keeps, Test(EqualTest("ip_type")), "ip_type" + " = " + "?", [f.ipType], keepsAlso);
      keeps := keepsAlso;
      parts := parts + ["ip_type" + " = " + "?"];
      args := args + [f.ipType];
      cs := cs + [Test(EqualTest("ip_type"))];
    }
    if f.status != "" {
      ghost var keepsAlso: Row -> bool := (row: Row) => keeps(row) && row.cell("status") == f.status;
      BuiltAppend(parts, args, cs, keeps, Test(EqualTest("status")), "status" + " = " + "?", [f.status], keepsAlso);
      keeps := keepsAlso;
      parts := parts + ["status" + " = " + "?"];
      args := args + [f.status];
      cs := cs + [Test(EqualTest("status"))];
    }
    BuiltSame(parts, args, cs, keeps, row => TypeAndStatusMatch(f, row));
  }

  /** The country test: by code and by label, the first placeholder taking whichever column is named first. */
  method CountryClause(countries: Countries, country: string) returns (text: string, args: seq<string>, ghost tests: seq<Token>)
    ensures TestsMean(tests, args, row => CountryIs(countries, country, row)) && tests != []
    ensures text == ClauseText(Group(tests))
  {
    OtherColumnsAreNamed();
    var code := countries.codeOf(country);
    var first, second;
    if code != "" {
      first, second := "country_code", "country";
      args := [code, country];
    } else {
      first, second := "country", "country_code";
      args := [country, country];
    }
    text := "(" + ((first + " = " + "?") + " OR " + (second + " = " + "?")) + ")";
    tests := [];
    TestsMeanAppend([], [], row => false, EqualTest(first), [args[0]], (row: Row) => row.cell(first) == args[0]);
    TestsMeanAppend([] + [EqualTest(first)], [] + [args[0]], (row: Row) => row.cell(first) == args[0], EqualTest(second), [args[1]],
                    row => CountryIs(countries, country, row));
    tests := [EqualTest(first), EqualTest(second)];
    assert [] + [EqualTest(first)] + [EqualTest(second)] == tests && [] + [args[0]] + [args[1]] == args;
    assert TestTexts(tests) == [TestText(tests[0]), TestText(tests[1])];
    JoinTwo(TestText(tests[0]), TestText(tests[1]), " OR ");
  }

  method PropertyClauses(countries: Countries, f: NodeFilter) returns (parts: seq<string>, args: seq<string>, ghost cs: seq<Clause>)
    ensures Built(parts, args, cs, row => PropertiesMatch(countries, f, row))
    ensures cs == [] <==> f.ipType == f.status == f.country == ""
  {
    parts, args, cs := TypeAndStatusClauses(f);
    if f.country != "" {
      var text, own;
      ghost var tests;
      text, own, tests := CountryClause(countries, f.country);
      GroupMeans(tests, own, row => CountryIs(countries, f.country, row));
      BuiltAppend(parts, args, cs, row => TypeAndStatusMatch(f, row), Group(tests), text, own, row => PropertiesMatch(countries, f, row));
      parts := parts + [text];
      args := args + own;
      cs := cs + [Group(tests)];
    } else {
      BuiltSame(parts, args, cs, row => TypeAndStatusMatch(f, row), row => PropertiesMatch(countries, f, row));
    }
  }

  method AppendTerm(countries: Countries, parts0: seq<string>, args0: seq<string>, ghost cs0: seq<Clause>,
                    ghost base: Row -> bool, ghost finds: Finder, ghost before: seq<string>, term: string)
    returns (parts: seq<string>, args: seq<string>, ghost cs: seq<Clause>)
    requires Built(parts0, args0, cs0, Narrowed(base, finds, before))
    requires forall row :: finds(term, row) <==> TermFinds(countries, term, row)
    ensures Built(parts, args, cs, Narrowed(base, finds, before + [term])) && cs != []
  {
    var text, own;
    ghost var tests;
    text, own, tests := SearchClause(countries, term);
    GroupMeans(tests, own, row => TermFinds(countries, term, row));
    BuiltAppend(parts0, args0, cs0, Narrowed(base, finds, before), Group(tests), text, own,
                Narrowed(base, finds, before + [term]));
    parts, args, cs := parts0 + [text], args0 + own, cs0 + [Group(tests)];
  }

  /** One group for each term, on top of what is built. */
  method TermClauses(countries: Countries, parts0: seq<string>, args0: seq<string>, ghost cs0: seq<Clause>,
                     ghost base: Row -> bool, ghost finds: Finder, terms: seq<string>)
    returns (parts: seq<string>, args: seq<string>, ghost cs: seq<Clause>)
    requires Built(parts0, args0, cs0, base)
    requires forall term, row :: finds(term, row) <==> TermFinds(countries, term, row)
    ensures Built(parts, args, cs, Narrowed(base, finds, terms))
    ensures cs == [] <==> cs0 == [] && terms == []
  {
    parts, args, cs := parts0, args0, cs0;
    BuiltSame(parts, args, cs, base, Narrowed(base, finds, terms[..0]));
    for i := 0 to |terms|
      invariant Built(parts, args, cs, Narrowed(base, finds, terms[..i]))
      invariant cs == [] <==> cs0 == [] && i == 0
    {
      assert terms[..i + 1] == terms[..i] + [terms[i]];
      parts, args, cs := AppendTerm(countries, parts, args, cs, base, finds, terms[..i], terms[i]);
    }
    assert terms[..|terms|] == terms;
  }

  /** One flag: a test without arguments. */
  method FlagClause(parts0: seq<string>, args: seq<string>, ghost cs0: seq<Clause>, ghost keeps: Row -> bool, wanted: bool, text: string,
                    ghost flag: Token, ghost keepsAlso: Row -> bool)
    returns (parts: seq<string>, ghost cs: seq<Clause>)
    requires Built(parts0, args, cs0, keeps) && IsTest(flag) && Arity(flag) == 0 && text == TestText(flag)
    requires forall row :: keepsAlso(row) <==> keeps(row) && (wanted ==> Holds(row, flag, []))
    ensures Built(parts, args, cs, keepsAlso)
    ensures cs == [] <==> cs0 == [] && !wanted
  {
    parts, cs := parts0, cs0;
    if wanted {
      BuiltAppend(parts, args, cs, keeps, Test(flag), text, [], keepsAlso);
      assert args + [] == args;
      parts := parts + [text];
      cs := cs + [Test(flag)];
    } else {
      BuiltSame(parts, args, cs, keeps, keepsAlso);
    }
  }

  ghost function Flagged(keeps: Row -> bool, f: NodeFilter): Row -> bool {
    (row: Row) => keeps(row) && (f.favoriteOnly ==> row.favorite) && (f.listedOnly ==> row.number("source_present") == 1)
                  && (f.reachableOnly ==> row.number("liveness_failures") == 0)
  }

  method FlagClauses(f: NodeFilter, parts0: seq<string>, args: seq<string>, ghost cs0: seq<Clause>, ghost keeps: Row -> bool)
    returns (parts: seq<string>, ghost cs: seq<Clause>)
    requires Built(parts0, args, cs0, keeps)
    ensures Built(parts, args, cs, Flagged(keeps, f))
    ensures cs == [] <==> cs0 == [] && !f.favoriteOnly && !f.listedOnly && !f.reachableOnly
  {
    ghost var keeps2: Row -> bool := row => keeps(row) && (f.favoriteOnly ==> row.favorite);
    ghost var keeps3: Row -> bool := row => keeps2(row) && (f.listedOnly ==> row.number("source_present") == 1);
    OtherColumnsAreNamed();
    var favorite := "EXISTS (SELECT 1 FROM favorites " + "WHERE favorites.node_id" + " = proxy_nodes.id)";
    parts, cs := FlagClause(parts0, args, cs0, keeps, f.favoriteOnly, favorite, FavoriteTest, keeps2);
    parts, cs := FlagClause(parts, args, cs, keeps2, f.listedOnly, "source_present" + " = " + "1", NumberTest("source_present", 1), keeps3);
    parts, cs := FlagClause(parts, args, cs, keeps3, f.reachableOnly, "liveness_failures" + " = " + "0",
                            NumberTest("liveness_failures", 0), Flagged(keeps, f));
  }

  lemma BuiltForFilter(countries: Countries, f: NodeFilter, base: Row -> bool, finds: Finder, keeps: Row -> bool,
                       parts: seq<string>, args: seq<string>, cs: seq<Clause>)
    requires keeps == Narrowed(base, finds, Terms(f.search)) && Built(parts, args, cs, Flagged(keeps, f))
    requires forall row :: base(row) <==> PropertiesMatch(countries, f, row)
    requires forall term, row :: finds(term, row) <==> TermFinds(countries, term, row)
    ensures Built(parts, args, cs, row => Matches(countries, f, row))
  {
    BuiltSame(parts, args, cs, Flagged(keeps, f), row => Matches(countries, f, row));
  }

  method AllClauses(countries: Countries, f: NodeFilter) returns (parts: seq<string>, args: seq<string>, ghost cs: seq<Clause>)
    ensures Built(parts, args, cs, row => Matches(countries, f, row))
    ensures cs == [] <==> f.ipType == f.status == f.country == "" && Fields(f.search) == []
                          && !f.favoriteOnly && !f.listedOnly && !f.reachableOnly
  {
    ghost var base: Row -> bool := row => PropertiesMatch(countries, f, row);
    ghost var finds: Finder := (term, row) => TermFinds(countries, term, row);
    parts, args, cs := PropertyClauses(countries, f);
    var terms := SearchTerms(f.search);
    parts, args, cs := TermClauses(countries, parts, args, cs, base, finds, terms);
    ghost var keeps := Narrowed(base, finds, terms);
    parts, cs := FlagClauses(f, parts, args, cs, keeps);
    BuiltForFilter(countries, f, base, finds, keeps, parts, args, cs);
  }

  /**
   The whole clause. Reading the text returned, with the arguments returned, keeps exactly the rows the filter
   stands for; every placeholder has its argument. It is empty exactly when the filter asks for nothing.
   */
  method Where(countries: Countries, f: NodeFilter) returns (text: string, args: seq<string>)
    ensures forall row :: ReadText(row, text, args) == Some(Matches(countries, f, row))
    ensures Marks(text) == |args|
    ensures text == "" <==> f.ipType == f.status == f.country == "" && Fields(f.search) == []
                            && !f.favoriteOnly && !f.listedOnly && !f.reachableOnly
  {
    var parts;
    ghost var cs;
    parts, args, cs := AllClauses(countries, f);
    WhereMarks(cs);
    if |parts| == 0 {
      return "", args;
    }
    text := " WHERE " + Join(parts, " AND ");
    forall row ensures ReadText(row, text, args) == Some(Matches(countries, f, row)) {
      WhereReads(row, cs, args);
    }
  }

  /** A query means its words: how they are separated makes no difference to any row. */
  lemma QueryMeansItsWords(countries: Countries, f: NodeFilter, words: seq<string>, gaps: seq<string>, otherGaps: seq<string>, row: Row)
    requires Spacing(gaps, words) && Spacing(otherGaps, words)
    ensures Matches(countries, f.(search := Spaced(gaps, words)), row) <==> Matches(countries, f.(search := Spaced(otherGaps, words)), row)
  {
    FieldsOfSpaced(gaps, words);
    FieldsOfSpaced(otherGaps, words);
    var a, b := Terms(Spaced(gaps, words)), Terms(Spaced(otherGaps, words));
    assert a == b by {
      assert |a| == |b| && forall i | 0 <= i < |a| :: a[i] == b[i];
    }
  }
}
