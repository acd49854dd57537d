/**
 The LIKE operator of SQLite with ESCAPE '\', and the escaping that turns a user's text into a pattern
 matching that text literally (internal/store/repo.go). Strings are sequences of characters without NUL.
 */
module LikePattern {

  /** LIKE ignores the case of the 26 ASCII letters and of nothing else. */
  function Fold(c: char): char {
    if 'A' <= c <= 'Z' then c + ' ' else c
  }

  /** The same character, or the two cases of one ASCII letter. */
  ghost predicate SameButCase(a: char, b: char) {
    || a == b
    || ('a' <= a <= 'z' && b as int == a as int - 32)
    || ('a' <= b <= 'z' && a as int == b as int - 32)
  }

  lemma FoldExactly(a: char, b: char)
    ensures Fold(a) == Fold(b) <==> SameButCase(a, b)
  {
  }

  ghost predicate EqualFold(a: string, b: string) {
    |a| == |b| && forall i | 0 <= i < |a| :: SameButCase(a[i], b[i])
  }

  function Like(pattern: string, value: string): bool
    decreases |pattern| + |value|
  {
    if pattern == [] then value == []
    else if pattern[0] == '%' then
      Like(pattern[1..], value) || (value != [] && Like(pattern, value[1..]))
    else if pattern[0] == '\\' then
      |pattern| > 1 && value != [] && Fold(pattern[1]) == Fold(value[0]) && Like(pattern[2..], value[1..])
    else
      value != [] && (pattern[0] == '_' || Fold(pattern[0]) == Fold(value[0])) && Like(pattern[1..], value[1..])
  }

  function Escape(term: string): string {
    if term == [] then []
    else (if term[0] in ['\\', '%', '_'] then ['\\', term[0]] else [term[0]]) + Escape(term[1..])
  }

  /** An escaped term at the head of a pattern consumes exactly a copy of the term, up to ASCII case. */
  lemma {:induction false} LikeEscaped(term: string, rest: string, value: string)
    ensures Like(Escape(term) + rest, value) <==>
              |term| <= |value| && EqualFold(term, value[..|term|]) && Like(rest, value[|term|..])
  {
    if term == [] {
      assert Escape(term) + rest == rest && value[0..] == value;
    } else {
      var tail := Escape(term[1..]) + rest;
      assert Escape(term) + rest == (if term[0] in ['\\', '%', '_'] then ['\\', term[0]] else [term[0]]) + tail;
      assert Like(Escape(term) + rest, value) <==> value != [] && Fold(term[0]) == Fold(value[0]) && Like(tail, value[1..]);
      if value != [] {
        FoldExactly(term[0], value[0]);
        LikeEscaped(term[1..], rest, value[1..]);
        if |term| <= |value| {
          assert value[1..][..|term| - 1] == value[..|term|][1..] && value[1..][|term| - 1..] == value[|term|..];
          FoldHeadTail(term, value[..|term|]);
        }
      }
    }
  }

  lemma FoldHeadTail(a: string, b: string)
    requires |a| == |b| > 0
    ensures EqualFold(a, b) <==> SameButCase(a[0], b[0]) && EqualFold(a[1..], b[1..])
  {
    if SameButCase(a[0], b[0]) && EqualFold(a[1..], b[1..]) {
      forall i | 0 <= i < |a| ensures SameButCase(a[i], b[i]) {
        if i > 0 {
          assert SameButCase(a[1..][i - 1], b[1..][i - 1]);
        }
      }
    }
    if EqualFold(a, b) {
      forall i | 0 <= i < |a| - 1 ensures SameButCase(a[1..][i], b[1..][i]) {
        assert SameButCase(a[i + 1], b[i + 1]);
      }
    }
  }

  lemma {:induction false} PercentMatchesAll(value: string)
    ensures Like("%", value)
  {
    if value != [] {
      PercentMatchesAll(value[1..]);
    }
    assert "%"[1..] == [];
  }

  ghost predicate OccursAt(term: string, value: string, at: nat) {
    at + |term| <= |value| && EqualFold(term, value[at..at + |term|])
  }

  ghost predicate Occurs(term: string, value: string) {
    exists at: nat :: OccursAt(term, value, at)
  }

  /** A leading % tries the rest of the pattern on every suffix. */
  lemma {:induction false} LikePercent(pattern: string, value: string)
    ensures Like(['%'] + pattern, value) <==> exists at | 0 <= at <= |value| :: Like(pattern, value[at..])
  {
    assert (['%'] + pattern)[1..] == pattern && value[0..] == value;
    if value != [] {
      LikePercent(pattern, value[1..]);
      assert forall at | 0 < at <= |value| :: value[1..][at - 1..] == value[at..];
      if at :| 0 < at <= |value| && Like(pattern, value[at..]) {
        assert Like(pattern, value[1..][at - 1..]);
      }
      if at :| 0 <= at <= |value[1..]| && Like(pattern, value[1..][at..]) {
        assert value[1..][at..] == value[at + 1..];
      }
    }
  }

  /** The substring pattern finds a value exactly when the term occurs in it, wildcards and all. */
  lemma LikeContains(term: string, value: string)
    ensures Like("%" + Escape(term) + "%", value) <==> Occurs(term, value)
  {
    assert "%" + Escape(term) + "%" == ['%'] + (Escape(term) + "%");
    LikePercent(Escape(term) + "%", value);
    forall at | 0 <= at <= |value|
      ensures Like(Escape(term) + "%", value[at..]) <==> OccursAt(term, value, at)
    {
      LikePrefix(term, value[at..]);
      if |term| <= |value[at..]| {
        assert value[at..][..|term|] == value[at..at + |term|];
      }
    }
    if at: nat :| OccursAt(term, value, at) {
      assert Like(Escape(term) + "%", value[at..]);
    }
  }

  lemma LikePrefix(term: string, value: string)
    ensures Like(Escape(term) + "%", value) <==> |term| <= |value| && EqualFold(term, value[..|term|])
  {
    LikeEscaped(term, "%", value);
    if |term| <= |value| {
      PercentMatchesAll(value[|term|..]);
    }
  }

  /** Without the escaping the search for 10.0.0.1_ would answer with other nodes. */
  lemma UnescapedTermMatchesOthers()
    ensures Like("1_", "12") && !Occurs("1_", "12")
    ensures !Like(Escape("1_"), "12")
  {
    assert "1_"[1..] == "_" && "12"[1..] == "2" && "_"[1..] == [] && "2"[1..] == [];
    LikeEscaped("1_", [], "12");
    assert Escape("1_") + [] == Escape("1_");
    FoldExactly('_', '2');
    forall at: nat ensures !OccursAt("1_", "12", at) {
      if at == 0 {
        assert "12"[0..2] == "12";
      }
    }
  }
}
