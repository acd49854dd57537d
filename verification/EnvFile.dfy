/**
 The environment file of an installation: how the process loads it (internal/config/config.go), and the
 migration of legacy names and the pruning an upgrade applies to it (internal/platform/setup.go).
 Text is a sequence of characters.
 */
module EnvFile {
  import opened Wrappers
  import opened Lines
  import opened Naming

  // ----- Reading a line -------------------------------------------------------------

  function IndexOf(s: string, c: char): (i: nat)
    ensures i <= |s| && (i < |s| ==> s[i] == c) && c !in s[..i]
  {
    if s == "" || s[0] == c then 0 else 1 + IndexOf(s[1..], c)
  }

  /** strings.Cut at the first `c`. */
  function Cut(s: string, c: char): (r: Option<(string, string)>)
    ensures r.Some? ==> s == r.value.0 + [c] + r.value.1 && c !in r.value.0
    ensures r.None? ==> c !in s
  {
    var i := IndexOf(s, c);
    if i == |s| then assert s[..i] == s; None else Some((s[..i], s[i + 1..]))
  }

  predicate IsQuote(c: char) { c == '"' || c == '\'' }

  function Unquoted(value: string): string {
    Trim(TrimSpace(value), IsQuote)
  }

  datatype Line = Comment | Junk | Binding(key: string, value: string)

  function ParseLine(line: string): Line {
    var trimmed := TrimSpace(line);
    if trimmed == "" || trimmed[0] == '#' then Comment
    else match Cut(trimmed, '=')
         case None => Junk
         case Some((key, value)) => Binding(TrimSpace(key), Unquoted(value))
  }

  /**
   The line gives the key the value: apart from white space around them, it reads the key, the first equals sign,
   and the value in any quotes; a line that begins with # is a comment.
   */
  ghost predicate Gives(line: string, key: string, value: string) {
    exists body, left, right, quoted :: GivesBy(line, body, left, right, quoted, key, value)
  }

  ghost predicate GivesBy(line: string, body: string, left: string, right: string, quoted: string, key: string, value: string) {
    && Stripped(line, body, IsSpace) && body != "" && body[0] != '#'
    && body == left + "=" + right && '=' !in left
    && Stripped(left, key, IsSpace) && Stripped(right, quoted, IsSpace)
    && Stripped(quoted, value, (c: char) => c == '"' || c == '\'')
  }

  lemma UnquotedExactly(right: string, value: string)
    ensures Unquoted(right) == value <==> Stripped(TrimSpace(right), value, (c: char) => c == '"' || c == '\'')
  {
    var quote := (c: char) => c == '"' || c == '\'';
    TrimExactly(TrimSpace(right), IsQuote, value);
    assert Stripped(TrimSpace(right), value, IsQuote) <==> Stripped(TrimSpace(right), value, quote) by {
      if before, after :| Frames(TrimSpace(right), before, value, after, IsQuote) {
        assert Frames(TrimSpace(right), before, value, after, quote);
      }
      if before, after :| Frames(TrimSpace(right), before, value, after, quote) {
        assert Frames(TrimSpace(right), before, value, after, IsQuote);
      }
    }
  }

  /** A line is parsed as a binding exactly when it gives the key the value. */
  lemma ParseLineExactly(line: string, key: string, value: string)
    ensures ParseLine(line) == Binding(key, value) <==> Gives(line, key, value)
  {
    if ParseLine(line) == Binding(key, value) {
      var body := TrimSpace(line);
      var (left, right) := Cut(body, '=').value;
      TrimExactly(line, IsSpace, body);
      TrimExactly(left, IsSpace, key);
      TrimExactly(right, IsSpace, TrimSpace(right));
      UnquotedExactly(right, value);
      assert GivesBy(line, body, left, right, TrimSpace(right), key, value);
    }
    if body, left, right, quoted :| GivesBy(line, body, left, right, quoted, key, value) {
      GivenIsParsed(line, body, left, right, quoted, key, value);
    }
  }

  lemma GivenIsParsed(line: string, body: string, left: string, right: string, quoted: string, key: string, value: string)
    requires GivesBy(line, body, left, right, quoted, key, value)
    ensures ParseLine(line) == Binding(key, value)
  {
    TrimExactly(line, IsSpace, body);
    TrimExactly(left, IsSpace, key);
    TrimExactly(right, IsSpace, quoted);
    UnquotedExactly(right, value);
    CutAtFirst(left, right);
  }

  /** Text that a line can carry as it is, on either side of the sign. */
  predicate Plain(s: string) {
    && s != "" && s[0] != '#' && '\n' !in s && '=' !in s && NUL !in s
    && (forall i | 0 <= i < |s| :: !IsSpace(s[i]) && !IsQuote(s[i]))
  }

  const NUL: char := '\U{0000}'

  lemma CutAtFirst(key: string, value: string)
    requires '=' !in key
    ensures Cut(key + "=" + value, '=') == Some((key, value))
  {
    var s := key + "=" + value;
    var i := IndexOf(s, '=');
    assert s[|key|] == '=' && forall j | 0 <= j < |key| :: s[j] == key[j];
    assert i <= |key| by { assert s[|key|] !in s[..i] || i <= |key|; }
    assert i == |key|;
    assert s[..i] == key && s[i + 1..] == value;
  }

  lemma PlainLineParses(key: string, value: string)
    requires Plain(key) && Plain(value)
    ensures ParseLine(key + "=" + value) == Binding(key, value)
    ensures '\n' !in key + "=" + value
  {
    var line := key + "=" + value;
    assert line[0] == key[0] && line[|line| - 1] == value[|value| - 1];
    assert TrimSpace(line) == line;
    CutAtFirst(key, value);
  }

  // ----- The loader ---------------------------------------------------------------------

  type Environment = map<string, string>

  const KEY_PREFIX := "FREE_PROXY_"

  /** os.Setenv refuses a NUL on either side; nothing else can make it fail here. */
  predicate Settable(key: string, value: string) {
    NUL !in key && NUL !in value
  }

  function LoadLine(env: Environment, line: string): Environment {
    match ParseLine(line)
    case Binding(key, value) =>
      if KEY_PREFIX <= key && key !in env && Settable(key, value) then env[key := value] else env
    case _ => env
  }

  function LoadAll(env: Environment, lines: seq<string>): Environment
    decreases |lines|
  {
    if lines == [] then env else LoadAll(LoadLine(env, lines[0]), lines[1..])
  }

  function Lookup(env: Environment, key: string): Option<string> {
    if key in env then Some(env[key]) else None
  }

  /** Merges the file into the environment: a missing or unreadable file adds nothing. */
  method LoadEnvFile(content: Option<string>, env0: Environment) returns (env: Environment)
    ensures env == if content.Some? then LoadAll(env0, Split('\n', content.value)) else env0
  {
    env := env0;
    if content.None? {
      return;
    }
    var lines := Split('\n', content.value);
    for i := 0 to |lines|
      invariant LoadAll(env, lines[i..]) == LoadAll(env0, lines)
    {
      assert lines[i..][0] == lines[i] && lines[i..][1..] == lines[i + 1..];
      var line := TrimSpace(lines[i]);
      if line == "" || line[0] == '#' {
        continue;
      }
      var cut := Cut(line, '=');
      if cut.None? {
        continue;
      }
      var key := TrimSpace(cut.value.0);
      if !(KEY_PREFIX <= key) {
        continue;
      }
      if key !in env && Settable(key, Unquoted(cut.value.1)) {
        env := env[key := Unquoted(cut.value.1)];
      }
    }
  }

  /** The first value the lines give a key that the environment can hold. */
  function FirstValue(lines: seq<string>, key: string): Option<string> {
    if lines == [] then None
    else match ParseLine(lines[0])
         case Binding(k, v) => if k == key && Settable(k, v) then Some(v) else FirstValue(lines[1..], key)
         case _ => FirstValue(lines[1..], key)
  }

  /** Loading gives each key its value in the process if it has one, else its first in the file. */
  lemma {:induction false} LoadGivesFirstValue(env: Environment, lines: seq<string>, key: string)
    requires KEY_PREFIX <= key
    ensures Lookup(LoadAll(env, lines), key) == if key in env then Some(env[key]) else FirstValue(lines, key)
    decreases |lines|
  {
    if lines != [] {
      LoadGivesFirstValue(LoadLine(env, lines[0]), lines[1..], key);
    }
  }

  /** The first line that gives the key a value the environment can hold is line `i`, which gives `value`. */
  ghost predicate FirstGives(lines: seq<string>, key: string, i: nat, value: string) {
    && i < |lines| && Gives(lines[i], key, value) && NUL !in value
    && forall j, earlier | 0 <= j < i && Gives(lines[j], key, earlier) :: NUL in earlier
  }

  lemma {:induction false} FirstValueExactly(lines: seq<string>, key: string)
    requires NUL !in key
    ensures FirstValue(lines, key).Some? ==> exists i :: FirstGives(lines, key, i, FirstValue(lines, key).value)
    ensures FirstValue(lines, key).None? ==> forall j, value | 0 <= j < |lines| && Gives(lines[j], key, value) :: NUL in value
  {
    if lines != [] {
      FirstValueExactly(lines[1..], key);
      var first, later := FirstValue(lines, key), FirstValue(lines[1..], key);
      if first == later && !(ParseLine(lines[0]).Binding? && ParseLine(lines[0]).key == key && NUL !in ParseLine(lines[0]).value) {
        GivesNothing(lines[0], key);
        if later.Some? {
          var i :| FirstGives(lines[1..], key, i, later.value);
          FirstGivesLater(lines, key, i, later.value);
        } else {
          NoneGives(lines, key);
        }
      } else {
        ParseLineExactly(lines[0], key, first.value);
        assert FirstGives(lines, key, 0, first.value);
      }
    }
  }

  lemma GivesNothing(line: string, key: string)
    requires !(ParseLine(line).Binding? && ParseLine(line).key == key && NUL !in ParseLine(line).value)
    ensures forall value | Gives(line, key, value) :: NUL in value
  {
    forall value | Gives(line, key, value)
      ensures NUL in value
    {
      ParseLineExactly(line, key, value);
    }
  }

  lemma NoneGives(lines: seq<string>, key: string)
    requires lines != [] && forall value | Gives(lines[0], key, value) :: NUL in value
    requires forall j, value | 0 <= j < |lines[1..]| && Gives(lines[1..][j], key, value) :: NUL in value
    ensures forall j, value | 0 <= j < |lines| && Gives(lines[j], key, value) :: NUL in value
  {
    forall j, value | 0 <= j < |lines| && Gives(lines[j], key, value)
      ensures NUL in value
    {
      assert j > 0 ==> lines[j] == lines[1..][j - 1];
    }
  }

  lemma FirstGivesLater(lines: seq<string>, key: string, i: nat, value: string)
    requires lines != [] && FirstGives(lines[1..], key, i, value)
    requires forall earlier | Gives(lines[0], key, earlier) :: NUL in earlier
    ensures FirstGives(lines, key, i + 1, value)
  {
    forall j, earlier | 0 <= j < i + 1 && Gives(lines[j], key, earlier)
      ensures NUL in earlier
    {
      assert j > 0 ==> lines[j] == lines[1..][j - 1];
    }
  }

  /**
   What a process finds under one of its keys once the file is loaded: its own value if it had one, else that of
   the first line that gives one it can hold. Every other key is as it was.
   */
  lemma LoadExactly(env: Environment, lines: seq<string>, key: string)
    ensures key in env || !("FREE_PROXY_" <= key) || NUL in key ==> Lookup(LoadAll(env, lines), key) == Lookup(env, key)
    ensures key !in env && "FREE_PROXY_" <= key && NUL !in key ==>
              match Lookup(LoadAll(env, lines), key) {
                case Some(value) => exists i :: FirstGives(lines, key, i, value)
                case None => forall j, value | 0 <= j < |lines| && Gives(lines[j], key, value) :: NUL in value
              }
  {
    if key in env || !(KEY_PREFIX <= key) || NUL in key {
      LoadLeaves(env, lines, key);
    } else {
      LoadGivesFirstValue(env, lines, key);
      FirstValueExactly(lines, key);
    }
  }

  lemma {:induction false} LoadLeaves(env: Environment, lines: seq<string>, key: string)
    requires key in env || !(KEY_PREFIX <= key) || NUL in key
    ensures Lookup(LoadAll(env, lines), key) == Lookup(env, key)
    decreases |lines|
  {
    if lines != [] {
      LoadLeaves(LoadLine(env, lines[0]), lines[1..], key);
    }
  }

  // ----- The rewriting, line by line -------------------------------------------------------

  datatype Rewrite = Rewrite(legacy: string, current: string)

  /** What an upgrade moves, what it adds, and what may stay. */
  datatype Policy = Policy(rewrites: map<string, Rewrite>, prefixKey: string, prefixValue: string, kept: set<string>)

  ghost predicate Sound(p: Policy) {
    && Plain(p.prefixKey) && Plain(p.prefixValue) && p.prefixKey in p.kept && p.prefixKey !in p.rewrites
    && (forall k | k in p.rewrites :: k in p.kept && Plain(k) && Plain(p.rewrites[k].current)
                                      && NUL !in p.rewrites[k].legacy && p.rewrites[k].current != p.rewrites[k].legacy)
    && (forall k | k in p.kept :: KEY_PREFIX <= k)
  }

  predicate Legacy(p: Policy, line: string) {
    match ParseLine(line)
    case Binding(key, value) => key in p.rewrites && value == p.rewrites[key].legacy
    case _ => false
  }

  function MigrateLine(p: Policy, line: string): string {
    if Legacy(p, line) then var key := ParseLine(line).key; key + "=" + p.rewrites[key].current else line
  }

  ghost predicate Named(lines: seq<string>, key: string) {
    exists line | line in lines :: ParseLine(line).Binding? && ParseLine(line).key == key
  }

  function MigrateAll(p: Policy, lines: seq<string>): seq<string> {
    if lines == [] then [] else [MigrateLine(p, lines[0])] + MigrateAll(p, lines[1..])
  }

  ghost function Migrated(p: Policy, lines: seq<string>): seq<string> {
    MigrateAll(p, lines) + if Named(lines, p.prefixKey) then [] else [p.prefixKey + "=" + p.prefixValue]
  }

  predicate Stays(p: Policy, line: string) {
    match ParseLine(line)
    case Comment => true
    case Junk => false
    case Binding(key, _) => key in p.kept
  }

  function Pruned(p: Policy, lines: seq<string>): seq<string> {
    if lines == [] then [] else (if Stays(p, lines[0]) then [lines[0]] else []) + Pruned(p, lines[1..])
  }

  // ----- Writing the lines back ------------------------------------------------------------

  function TrimNewlines(s: string): string {
    if s != "" && s[|s| - 1] == '\n' then TrimNewlines(s[..|s| - 1]) else s
  }

  function Rendered(lines: seq<string>): string {
    TrimNewlines(Join(lines, "\n")) + "\n"
  }

  ghost predicate AreLines(lines: seq<string>) {
    forall line | line in lines :: '\n' !in line
  }

  /** Without the empty lines at the end. */
  function Trimmed(lines: seq<string>): seq<string> {
    if lines != [] && lines[|lines| - 1] == "" then Trimmed(lines[..|lines| - 1]) else lines
  }

  lemma {:induction false} JoinSnoc(lines: seq<string>, line: string)
    requires lines != []
    ensures Join(lines + [line], "\n") == Join(lines, "\n") + "\n" + line
  {
    if |lines| == 1 {
      assert (lines + [line])[1..] == [line];
    } else {
      assert (lines + [line])[1..] == lines[1..] + [line];
      JoinSnoc(lines[1..], line);
    }
  }

  lemma {:induction false} TrimNewlinesOfJoin(lines: seq<string>)
    requires AreLines(lines)
    ensures AreLines(Trimmed(lines)) && TrimNewlines(Join(lines, "\n")) == Join(Trimmed(lines), "\n")
    decreases |lines|
  {
    if lines != [] {
      var front, last := lines[..|lines| - 1], lines[|lines| - 1];
      assert lines == front + [last] && last in lines;
      var text := Join(lines, "\n");
      if front != [] {
        JoinSnoc(front, last);
      }
      if last == "" {
        if front != [] {
          assert text == Join(front, "\n") + "\n" && text[..|text| - 1] == Join(front, "\n");
        }
        TrimNewlinesOfJoin(front);
      } else {
        assert text[|text| - 1] == last[|last| - 1] && last[|last| - 1] in last;
      }
    }
  }

  /** Read back, the lines written are the lines given, but for empty lines at the end. */
  lemma RenderedLines(lines: seq<string>)
    requires AreLines(lines)
    ensures Split('\n', Rendered(lines)) == (if Trimmed(lines) == [] then [""] else Trimmed(lines)) + [""]
  {
    TrimNewlinesOfJoin(lines);
    var text := Join(Trimmed(lines), "\n");
    assert Rendered(lines) == text + ['\n'] + "";
    SplitLastLine('\n', Rendered(lines), text, "");
    if Trimmed(lines) != [] {
      SplitJoin(Trimmed(lines), '\n');
    } else {
      SplitOneLine('\n', "");
    }
  }

  lemma {:induction false} TrimmedTwice(lines: seq<string>)
    ensures Trimmed(Trimmed(lines)) == Trimmed(lines)
    ensures Trimmed(lines + [""]) == Trimmed(lines)
  {
    assert (lines + [""])[..|lines|] == lines;
    if lines != [] && lines[|lines| - 1] == "" {
      TrimmedTwice(lines[..|lines| - 1]);
    }
  }

  lemma TrimmedOfRendered(lines: seq<string>)
    requires AreLines(lines)
    ensures Trimmed(Split('\n', Rendered(lines))) == Trimmed(lines)
    ensures Rendered(Split('\n', Rendered(lines))) == Rendered(lines)
  {
    RenderedLines(lines);
    var head := if Trimmed(lines) == [] then [""] else Trimmed(lines);
    TrimmedTwice(head);
    TrimmedTwice(lines);
    TrimmedTwice([]);
    assert [] + [""] == [""];
    NoSeparatorInLines('\n', Rendered(lines));
    TrimNewlinesOfJoin(Split('\n', Rendered(lines)));
    TrimNewlinesOfJoin(lines);
  }

  // ----- What the lines mean, through each change --------------------------------------------

  lemma {:induction false} FirstValueConcat(a: seq<string>, b: seq<string>, key: string)
    ensures FirstValue(a + b, key) == if FirstValue(a, key).Some? then FirstValue(a, key) else FirstValue(b, key)
  {
    if a == [] {
      assert a + b == b;
    } else {
      assert (a + b)[1..] == a[1..] + b;
      FirstValueConcat(a[1..], b, key);
    }
  }

  lemma NamedConcat(a: seq<string>, b: seq<string>, key: string)
    ensures Named(a + b, key) <==> Named(a, key) || Named(b, key)
  {
  }

  lemma EmptyLineMeansNothing(key: string)
    ensures FirstValue([""], key) == None && !Named([""], key)
  {
  }

  lemma {:induction false} TrimmedMeansTheSame(lines: seq<string>, key: string)
    ensures FirstValue(Trimmed(lines), key) == FirstValue(lines, key)
    ensures Named(Trimmed(lines), key) <==> Named(lines, key)
  {
    if lines != [] && lines[|lines| - 1] == "" {
      var front := lines[..|lines| - 1];
      assert lines == front + [""];
      EmptyLineMeansNothing(key);
      FirstValueConcat(front, [""], key);
      NamedConcat(front, [""], key);
      TrimmedMeansTheSame(front, key);
    }
  }

  lemma RenderedMeansTheSame(lines: seq<string>, key: string)
    requires AreLines(lines)
    ensures FirstValue(Split('\n', Rendered(lines)), key) == FirstValue(lines, key)
    ensures Named(Split('\n', Rendered(lines)), key) <==> Named(lines, key)
  {
    RenderedLines(lines);
    TrimmedMeansTheSame(lines, key);
    TrimmedMeansTheSame(Split('\n', Rendered(lines)), key);
    TrimmedOfRendered(lines);
  }

  function Moved(p: Policy, key: string, value: Option<string>): Option<string> {
    if key in p.rewrites && value == Some(p.rewrites[key].legacy) then Some(p.rewrites[key].current) else value
  }

  lemma MigratedLineParses(p: Policy, line: string)
    requires Sound(p)
    ensures !Legacy(p, MigrateLine(p, line))
    ensures '\n' !in line ==> '\n' !in MigrateLine(p, line)
    ensures ParseLine(MigrateLine(p, line)).Binding? <==> ParseLine(line).Binding?
    ensures ParseLine(line).Binding? ==>
              && ParseLine(MigrateLine(p, line)).key == ParseLine(line).key
              && Some(ParseLine(MigrateLine(p, line)).value) == Moved(p, ParseLine(line).key, Some(ParseLine(line).value))
  {
    if Legacy(p, line) {
      PlainLineParses(ParseLine(line).key, p.rewrites[ParseLine(line).key].current);
    }
  }

  lemma {:induction false} MigrateAllMeans(p: Policy, lines: seq<string>, key: string)
    requires Sound(p)
    ensures FirstValue(MigrateAll(p, lines), key) == Moved(p, key, FirstValue(lines, key))
    ensures Named(MigrateAll(p, lines), key) <==> Named(lines, key)
    ensures forall line | line in MigrateAll(p, lines) :: !Legacy(p, line)
    ensures AreLines(lines) ==> AreLines(MigrateAll(p, lines))
  {
    if lines != [] {
      var line, rest := lines[0], lines[1..];
      MigratedLineParses(p, line);
      MigrateAllMeans(p, rest, key);
      MigratedFirst(p, line, rest, MigrateAll(p, rest), key);
      assert lines == [line] + rest;
    }
  }

  lemma MigratedFirst(p: Policy, line: string, rest: seq<string>, after: seq<string>, key: string)
    requires Sound(p) && FirstValue(after, key) == Moved(p, key, FirstValue(rest, key)) && (Named(after, key) <==> Named(rest, key))
    ensures FirstValue([MigrateLine(p, line)] + after, key) == Moved(p, key, FirstValue([line] + rest, key))
    ensures Named([MigrateLine(p, line)] + after, key) <==> Named([line] + rest, key)
  {
    MigratedLineParses(p, line);
    FirstValueConcat([MigrateLine(p, line)], after, key);
    FirstValueConcat([line], rest, key);
    NamedConcat([line], rest, key);
    NamedConcat([MigrateLine(p, line)], after, key);
  }

  /** The value of a key after the migration. */
  ghost function Upgraded(p: Policy, lines: seq<string>, key: string): Option<string> {
    if key == p.prefixKey && !Named(lines, key) then Some(p.prefixValue) else Moved(p, key, FirstValue(lines, key))
  }

  lemma {:induction false} UnnamedHasNoValue(lines: seq<string>, key: string)
    requires !Named(lines, key)
    ensures FirstValue(lines, key) == None
  {
    if lines != [] {
      NamedConcat([lines[0]], lines[1..], key);
      assert lines == [lines[0]] + lines[1..] && lines[0] in lines;
      UnnamedHasNoValue(lines[1..], key);
    }
  }

  lemma PrefixLineMeans(p: Policy, key: string)
    requires Sound(p)
    ensures var added := p.prefixKey + "=" + p.prefixValue;
            && ParseLine(added) == Binding(p.prefixKey, p.prefixValue) && '\n' !in added && !Legacy(p, added)
            && FirstValue([added], key) == (if key == p.prefixKey then Some(p.prefixValue) else None)
            && Named([added], p.prefixKey)
  {
    var added := p.prefixKey + "=" + p.prefixValue;
    PlainLineParses(p.prefixKey, p.prefixValue);
    assert added in [added] && [added][1..] == [];
  }

  lemma MigratedMeans(p: Policy, lines: seq<string>, key: string)
    requires Sound(p)
    ensures FirstValue(Migrated(p, lines), key) == Upgraded(p, lines, key)
    ensures Named(Migrated(p, lines), p.prefixKey)
    ensures forall line | line in Migrated(p, lines) :: !Legacy(p, line)
    ensures AreLines(lines) ==> AreLines(Migrated(p, lines))
  {
    MigrateAllMeans(p, lines, key);
    MigrateAllMeans(p, lines, p.prefixKey);
    if Named(lines, p.prefixKey) {
      assert Migrated(p, lines) == MigrateAll(p, lines);
    } else {
      var added := p.prefixKey + "=" + p.prefixValue;
      PrefixLineMeans(p, key);
      FirstValueConcat(MigrateAll(p, lines), [added], key);
      NamedConcat(MigrateAll(p, lines), [added], p.prefixKey);
      UnnamedHasNoValue(lines, p.prefixKey);
    }
  }

  lemma {:induction false} PrunedKeepsValues(p: Policy, lines: seq<string>, key: string)
    requires key in p.kept
    ensures FirstValue(Pruned(p, lines), key) == FirstValue(lines, key)
  {
    if lines != [] {
      PrunedKeepsValues(p, lines[1..], key);
      if Stays(p, lines[0]) {
        assert Pruned(p, lines)[0] == lines[0] && Pruned(p, lines)[1..] == Pruned(p, lines[1..]);
      } else {
        assert Pruned(p, lines) == Pruned(p, lines[1..]);
      }
    }
  }

  lemma {:induction false} PrunedNames(p: Policy, lines: seq<string>, key: string)
    ensures Named(Pruned(p, lines), key) <==> key in p.kept && Named(lines, key)
    ensures forall line | line in Pruned(p, lines) :: line in lines && Stays(p, line)
  {
    if lines != [] {
      PrunedNames(p, lines[1..], key);
      NamedConcat([lines[0]], lines[1..], key);
      assert lines == [lines[0]] + lines[1..];
      if Stays(p, lines[0]) {
        NamedConcat([lines[0]], Pruned(p, lines[1..]), key);
      }
    }
  }

  lemma {:induction false} PrunedKeepsAll(p: Policy, lines: seq<string>)
    requires forall line | line in lines :: Stays(p, line)
    ensures Pruned(p, lines) == lines
  {
    if lines != [] {
      PrunedKeepsAll(p, lines[1..]);
    }
  }

  // ----- Whole files --------------------------------------------------------------------------

  ghost predicate NoneLegacy(p: Policy, lines: seq<string>) {
    forall line | line in lines :: !Legacy(p, line)
  }

  /** Nothing is left to migrate. */
  ghost predicate Settled(p: Policy, lines: seq<string>) {
    NoneLegacy(p, lines) && Named(lines, p.prefixKey)
  }

  ghost function MigrateText(p: Policy, text: string): string {
    if Settled(p, Split('\n', text)) then text else Rendered(Migrated(p, Split('\n', text)))
  }

  function PruneText(p: Policy, text: string): string {
    Rendered(Pruned(p, Split('\n', text)))
  }

  lemma {:induction false} SettledStays(p: Policy, lines: seq<string>)
    requires forall line | line in lines :: !Legacy(p, line)
    ensures MigrateAll(p, lines) == lines
  {
    if lines != [] {
      SettledStays(p, lines[1..]);
    }
  }

  lemma MigrateTextMeans(p: Policy, text: string, key: string)
    requires Sound(p)
    ensures FirstValue(Split('\n', MigrateText(p, text)), key) == Upgraded(p, Split('\n', text), key)
    ensures Named(Split('\n', MigrateText(p, text)), p.prefixKey)
    ensures forall line | line in Split('\n', MigrateText(p, text)) :: !Legacy(p, line)
  {
    var lines := Split('\n', text);
    NoSeparatorInLines('\n', text);
    MigratedMeans(p, lines, key);
    if Settled(p, lines) {
      SettledStays(p, lines);
      assert Migrated(p, lines) == lines;
    } else {
      RenderedMeansTheSame(Migrated(p, lines), key);
      RenderedMeansTheSame(Migrated(p, lines), p.prefixKey);
      RenderedIsSettled(p, Migrated(p, lines));
    }
  }

  lemma {:induction false} TrimmedIsSubset(lines: seq<string>)
    ensures forall line | line in Trimmed(lines) :: line in lines
  {
    if lines != [] && lines[|lines| - 1] == "" {
      TrimmedIsSubset(lines[..|lines| - 1]);
    }
  }

  lemma RenderedIsSettled(p: Policy, lines: seq<string>)
    requires AreLines(lines) && forall line | line in lines :: !Legacy(p, line)
    ensures forall line | line in Split('\n', Rendered(lines)) :: !Legacy(p, line)
    ensures forall line | line in Split('\n', Rendered(lines)) :: line in lines || line == ""
  {
    RenderedLines(lines);
    TrimmedIsSubset(lines);
  }

  lemma PruneTextMeans(p: Policy, text: string, key: string)
    ensures var after := Split('\n', PruneText(p, text));
            && (key in p.kept ==> FirstValue(after, key) == FirstValue(Split('\n', text), key))
            && (Named(after, key) <==> key in p.kept && Named(Split('\n', text), key))
  {
    var lines := Split('\n', text);
    NoSeparatorInLines('\n', text);
    PrunedNames(p, lines, key);
    if key in p.kept {
      PrunedKeepsValues(p, lines, key);
    }
    RenderedMeansTheSame(Pruned(p, lines), key);
  }

  /**
   Loading after migrate-then-prune gives each infrastructure key what it had: the process's own value if it
   has one, else the file's first, with a legacy default moved and a missing probe prefix set.
   */
  lemma UpgradePreservesSettings(p: Policy, env: Environment, text: string, key: string)
    requires Sound(p) && key in p.kept
    ensures var after := PruneText(p, MigrateText(p, text));
            Lookup(LoadAll(env, Split('\n', after)), key)
            == if key in env then Some(env[key]) else Upgraded(p, Split('\n', text), key)
  {
    MigrateTextMeans(p, text, key);
    PruneTextMeans(p, MigrateText(p, text), key);
    LoadGivesFirstValue(env, Split('\n', PruneText(p, MigrateText(p, text))), key);
  }

  /** Every other key is gone. */
  lemma UpgradeDropsTheRest(p: Policy, env: Environment, text: string, key: string)
    requires Sound(p) && key !in p.kept
    ensures var after := Split('\n', PruneText(p, MigrateText(p, text)));
            !Named(after, key) && (KEY_PREFIX <= key ==> Lookup(LoadAll(env, after), key) == Lookup(env, key))
  {
    PruneTextMeans(p, MigrateText(p, text), key);
    var after := Split('\n', PruneText(p, MigrateText(p, text)));
    UnnamedHasNoValue(after, key);
    if KEY_PREFIX <= key {
      LoadGivesFirstValue(env, after, key);
    }
  }

  /** A second upgrade leaves the file exactly as it is. */
  lemma SecondUpgradeChangesNothing(p: Policy, text: string)
    requires Sound(p)
    ensures var after := PruneText(p, MigrateText(p, text)); MigrateText(p, after) == after && PruneText(p, after) == after
  {
    var migrated := Split('\n', MigrateText(p, text));
    var kept := Pruned(p, migrated);
    var after := Rendered(kept);
    MigrateTextMeans(p, text, p.prefixKey);
    PruneTextMeans(p, MigrateText(p, text), p.prefixKey);
    PrunedNames(p, migrated, p.prefixKey);
    NoSeparatorInLines('\n', MigrateText(p, text));
    RenderedIsSettled(p, kept);
    assert Settled(p, Split('\n', after));
    PrunedKeepsAll(p, Split('\n', after));
    TrimmedOfRendered(kept);
  }

  // ----- The upgrade's own policy ---------------------------------------------------------------

  const TUNNEL_KEY := "FREE_PROXY_TUNNEL_INTERFACE"
  const TABLE_KEY := "FREE_PROXY_POLICY_ROUTING_TABLE"
  const PROBE_PREFIX_KEY := "FREE_PROXY_PROBE_DEVICE_PREFIX"

  const REWRITES: map<string, Rewrite> := map[
    TUNNEL_KEY := Rewrite("tun0", "fpx0"),
    TABLE_KEY := Rewrite("100", "9527")
  ]

  const INFRASTRUCTURE_KEYS: set<string> := {
    "FREE_PROXY_ENVIRONMENT", "FREE_PROXY_DATA_DIR", "FREE_PROXY_DATABASE_URL", "FREE_PROXY_ALLOW_PROCESS_RESTART",
    "FREE_PROXY_OPENVPN_COMMAND", TUNNEL_KEY, PROBE_PREFIX_KEY, TABLE_KEY, "FREE_PROXY_ENV_FILE", "FREE_PROXY_REPO",
    "FREE_PROXY_RELEASE"
  }

  const UPGRADE := Policy(REWRITES, PROBE_PREFIX_KEY, DEVICE_PREFIX, INFRASTRUCTURE_KEYS)

  predicate IsKeyChar(c: char) {
    'A' <= c <= 'Z' || c == '_' || 'a' <= c <= 'z' || '0' <= c <= '9'
  }

  lemma KeyCharsArePlain(s: string)
    requires s != "" && forall c | c in s :: IsKeyChar(c)
    ensures Plain(s)
  {
    forall i | 0 <= i < |s| ensures !IsSpace(s[i]) && !IsQuote(s[i]) {
      assert s[i] in s;
    }
    assert s[0] in s;
  }

  lemma TunnelKeyIsPlain(s: string)
    requires s == TUNNEL_KEY
    ensures Plain(s)
  {
    KeyCharsArePlain(s);
  }

  lemma TableKeyIsPlain(s: string)
    requires s == TABLE_KEY
    ensures Plain(s)
  {
    KeyCharsArePlain(s);
  }

  lemma PrefixKeyIsPlain(s: string)
    requires s == PROBE_PREFIX_KEY
    ensures Plain(s)
  {
    KeyCharsArePlain(s);
  }

  lemma ValuesArePlain(a: string, b: string, c: string)
    requires a == "fpx0" && b == "9527" && c == DEVICE_PREFIX
    ensures Plain(a) && Plain(b) && Plain(c)
  {
    KeyCharsArePlain(a);
    KeyCharsArePlain(b);
    KeyCharsArePlain(c);
  }

  lemma KeysHavePrefix()
    ensures forall k | k in INFRASTRUCTURE_KEYS :: KEY_PREFIX <= k
  {
  }

  lemma RewritesAreSound(tunnel: string, table: string)
    requires tunnel == TUNNEL_KEY && table == TABLE_KEY
    ensures forall k | k in REWRITES :: Plain(k) && Plain(REWRITES[k].current) && NUL !in REWRITES[k].legacy
                                        && REWRITES[k].current != REWRITES[k].legacy
  {
    TunnelKeyIsPlain(tunnel);
    TableKeyIsPlain(table);
    ValuesArePlain("fpx0", "9527", DEVICE_PREFIX);
  }

  lemma UpgradeIsSound()
    ensures Sound(UPGRADE)
  {
    RewritesAreSound(TUNNEL_KEY, TABLE_KEY);
    PrefixKeyIsPlain(PROBE_PREFIX_KEY);
    ValuesArePlain("fpx0", "9527", DEVICE_PREFIX);
    KeysHavePrefix();
    assert |PROBE_PREFIX_KEY| == 30 && |TUNNEL_KEY| == 27 && |TABLE_KEY| == 31;
  }

  /** The new values are the ones the rest of the program claims. */
  lemma UpgradeMovesToCurrentNames()
    ensures REWRITES[TUNNEL_KEY] == Rewrite("tun0", ActiveDevice())
    ensures REWRITES[TABLE_KEY] == Rewrite(Itoa(100), Itoa(DEFAULT_ROUTING_TABLE))
  {
    assert |TUNNEL_KEY| == 27 && |TABLE_KEY| == 31;
  }

  // ----- The code ---------------------------------------------------------------------------------

  class File {
    /** None when there is no such file. */
    var content: Option<string>

    constructor (content: Option<string>)
      ensures this.content == content
    {
      this.content := content;
    }
  }

  /** Which of the system's answers a call gets: reading, writing beside the file, moving it over the file. */
  datatype Io = Io(readable: bool, writes: bool, renames: bool)

  predicate IsMark(key: string) { key != "" && key[0] == '#' }

  /** The migration tests the text before the sign for '#', the loader the whole line: the same lines pass. */
  lemma CutIsParse(line: string)
    ensures var cut := Cut(TrimSpace(line), '=');
            if cut.None? || IsMark(cut.value.0) then !ParseLine(line).Binding?
            else ParseLine(line) == Binding(TrimSpace(cut.value.0), Unquoted(cut.value.1))
  {
    var trimmed := TrimSpace(line);
    var cut := Cut(trimmed, '=');
    if cut.Some? {
      assert trimmed[0] == if cut.value.0 == "" then '=' else cut.value.0[0];
    }
  }

  lemma {:induction false} MigrateAllSnoc(p: Policy, lines: seq<string>, line: string)
    ensures MigrateAll(p, lines + [line]) == MigrateAll(p, lines) + [MigrateLine(p, line)]
  {
    if lines == [] {
      assert lines + [line] == [line] && [line][1..] == [];
    } else {
      assert (lines + [line])[1..] == lines[1..] + [line];
      MigrateAllSnoc(p, lines[1..], line);
    }
  }

  /** One line's turn: whether it names the probe prefix, and what it becomes. */
  method MigrateOne(p: Policy, line: string) returns (names: bool, rewritten: Option<string>)
    requires Sound(p)
    ensures names <==> ParseLine(line).Binding? && ParseLine(line).key == p.prefixKey
    ensures rewritten == if Legacy(p, line) then Some(MigrateLine(p, line)) else None
  {
    CutIsParse(line);
    var cut := Cut(TrimSpace(line), '=');
    if cut.None? || IsMark(cut.value.0) {
      return false, None;
    }
    var key := TrimSpace(cut.value.0);
    if key == p.prefixKey {
      return true, None;
    }
    if key !in p.rewrites || Unquoted(cut.value.1) != p.rewrites[key].legacy {
      return false, None;
    }
    return false, Some(key + "=" + p.rewrites[key].current);
  }

  lemma MigrateNext(p: Policy, lines: seq<string>, i: nat)
    requires i < |lines|
    ensures MigrateAll(p, lines[..i + 1]) == MigrateAll(p, lines[..i]) + [MigrateLine(p, lines[i])]
    ensures NoneLegacy(p, lines[..i + 1]) <==> NoneLegacy(p, lines[..i]) && !Legacy(p, lines[i])
    ensures Named(lines[..i + 1], p.prefixKey) <==>
              Named(lines[..i], p.prefixKey) || (ParseLine(lines[i]).Binding? && ParseLine(lines[i]).key == p.prefixKey)
  {
    assert lines[..i + 1] == lines[..i] + [lines[i]];
    MigrateAllSnoc(p, lines[..i], lines[i]);
    NamedConcat(lines[..i], [lines[i]], p.prefixKey);
    assert lines[i] in [lines[i]];
  }

  lemma SetNext(front: seq<string>, original: seq<string>, i: nat, line: string)
    requires i < |original| && |front| == i
    ensures (front + original[i..])[i := line] == front + [line] + original[i + 1..]
    ensures front + original[i..] == front + [original[i]] + original[i + 1..]
  {
  }

  method MigrateInPlace(p: Policy, original: seq<string>) returns (lines: seq<string>, changed: seq<string>, seenPrefix: bool)
    requires Sound(p)
    ensures lines == MigrateAll(p, original)
    ensures changed == [] <==> NoneLegacy(p, original)
    ensures seenPrefix <==> Named(original, p.prefixKey)
  {
    lines, changed, seenPrefix := original, [], false;
    ghost var front: seq<string> := [];
    for i := 0 to |original|
      invariant front == MigrateAll(p, original[..i]) && |front| == i && lines == front + original[i..]
      invariant seenPrefix <==> Named(original[..i], p.prefixKey)
      invariant changed == [] <==> NoneLegacy(p, original[..i])
    {
      MigrateNext(p, original, i);
      var names, rewritten := MigrateOne(p, lines[i]);
      if names {
        seenPrefix := true;
      }
      if rewritten.Some? {
        SetNext(front, original, i, rewritten.value);
        lines := lines[i := rewritten.value];
        changed := changed + [ParseLine(original[i]).key];
      } else {
        SetNext(front, original, i, original[i]);
      }
      front := front + [MigrateLine(p, original[i])];
    }
    assert original[..|original|] == original;
  }

  method MigrateLines(p: Policy, original: seq<string>) returns (lines: seq<string>, changed: seq<string>)
    requires Sound(p)
    ensures lines == Migrated(p, original)
    ensures changed == [] <==> Settled(p, original)
  {
    var seenPrefix;
    lines, changed, seenPrefix := MigrateInPlace(p, original);
    if !seenPrefix {
      lines := lines + [p.prefixKey + "=" + p.prefixValue];
      changed := changed + [p.prefixKey];
    }
  }

  /** The file is replaced as a whole or left as it was; the keys changed are reported. */
  method MigrateLegacyNaming(p: Policy, f: File, io: Io) returns (ok: bool, changed: seq<string>)
    requires Sound(p)
    modifies f
    ensures f.content.None? <==> old(f.content).None?
    ensures io.readable && io.writes && io.renames && f.content.Some? ==> f.content.value == MigrateText(p, old(f.content).value)
    ensures !(io.readable && io.writes && io.renames) ==> f.content == old(f.content)
    ensures ok <==> old(f.content).None?
                    || (io.readable && (Settled(p, Split('\n', old(f.content).value)) || (io.writes && io.renames)))
    ensures ok && changed == [] ==> f.content == old(f.content)
    ensures ok && changed != [] ==> f.content.Some? && !Settled(p, Split('\n', old(f.content).value))
  {
    if f.content.None? {
      return true, [];
    }
    if !io.readable {
      return false, [];
    }
    var lines;
    lines, changed := MigrateLines(p, Split('\n', f.content.value));
    if |changed| == 0 {
      return true, [];
    }
    var out := TrimNewlines(Join(lines, "\n")) + "\n";
    if !io.writes || !io.renames {
      return false, [];
    }
    f.content := Some(out);
    ok := true;
  }

  lemma {:induction false} PrunedSnoc(p: Policy, lines: seq<string>, line: string)
    ensures Pruned(p, lines + [line]) == Pruned(p, lines) + if Stays(p, line) then [line] else []
  {
    if lines == [] {
      assert lines + [line] == [line] && [line][1..] == [];
    } else {
      assert (lines + [line])[1..] == lines[1..] + [line];
      PrunedSnoc(p, lines[1..], line);
    }
  }

  method PruneLines(p: Policy, lines: seq<string>) returns (kept: seq<string>)
    ensures kept == Pruned(p, lines)
  {
    kept := [];
    for i := 0 to |lines|
      invariant kept == Pruned(p, lines[..i])
    {
      assert lines[..i + 1] == lines[..i] + [lines[i]];
      PrunedSnoc(p, lines[..i], lines[i]);
      var trimmed := TrimSpace(lines[i]);
      if trimmed == "" || trimmed[0] == '#' {
        kept := kept + [lines[i]];
        continue;
      }
      var cut := Cut(trimmed, '=');
      if cut.Some? && TrimSpace(cut.value.0) in p.kept {
        kept := kept + [lines[i]];
      }
    }
    assert lines[..|lines|] == lines;
  }

  method PruneDatabaseSettingsEnv(p: Policy, f: File, io: Io) returns (ok: bool)
    modifies f
    ensures ok <==> old(f.content).Some? && io.readable && io.writes && io.renames
    ensures f.content == if ok then Some(PruneText(p, old(f.content).value)) else old(f.content)
  {
    if f.content.None? || !io.readable {
      return false;
    }
    var kept := PruneLines(p, Split('\n', f.content.value));
    var out := TrimNewlines(Join(kept, "\n")) + "\n";
    if !io.writes || !io.renames {
      return false;
    }
    f.content := Some(out);
    ok := true;
  }

  /** An upgrade and a later start of the process: what the process finds in its environment. */
  method UpgradeThenLoad(f: File, env0: Environment) returns (env: Environment)
    requires f.content.Some?
    modifies f
    ensures forall key | key in UPGRADE.kept ::
              Lookup(env, key) == if key in env0 then Some(env0[key]) else Upgraded(UPGRADE, Split('\n', old(f.content).value), key)
    ensures forall key | key !in UPGRADE.kept && KEY_PREFIX <= key :: Lookup(env, key) == Lookup(env0, key)
  {
    UpgradeIsSound();
    ghost var text := f.content.value;
    var migrated, changed := MigrateLegacyNaming(UPGRADE, f, Io(true, true, true));
    var pruned := PruneDatabaseSettingsEnv(UPGRADE, f, Io(true, true, true));
    env := LoadEnvFile(f.content, env0);
    forall key | key in UPGRADE.kept
      ensures Lookup(env, key) == if key in env0 then Some(env0[key]) else Upgraded(UPGRADE, Split('\n', text), key)
    {
      UpgradePreservesSettings(UPGRADE, env0, text, key);
    }
    forall key | key !in UPGRADE.kept && KEY_PREFIX <= key ensures Lookup(env, key) == Lookup(env0, key) {
      UpgradeDropsTheRest(UPGRADE, env0, text, key);
    }
  }
}
